/**
  Text normalisation: lower-case, delete URLs, e-mail addresses and phone
  numbers, turn every other character outside `[a-z0-9\s]` into a space,
  collapse whitespace runs to one space, and trim the ends.
  The three deletions are regular-expression rewrites whose exact matching
  is not modelled; they are supplied as opaque string functions, and every
  property below holds whatever they do.
 */
module Normalizer {
  import opened Text

  /** The URL, e-mail and phone-number deletions, in the order they run. */
  datatype Scrubbers = Scrubbers(
    stripUrls: string -> string,
    stripEmails: string -> string,
    stripPhones: string -> string)

  /** The characters of `s` that are not whitespace, in order. */
  function NonSpace(s: string): string {
    if s == [] then [] else (if IsSpace(s[0]) then [] else [s[0]]) + NonSpace(s[1..])
  }

  /** No two adjacent spaces. */
  predicate NoDoubleSpace(s: string) {
    forall i :: 0 <= i < |s| - 1 ==> !(s[i] == ' ' && s[i + 1] == ' ')
  }

  /**
    The words of `s`: its maximal runs of non-whitespace characters, in
    order. A non-whitespace character starts a new word when the next
    character is whitespace or there is none; otherwise it joins the word
    that begins right after it.
   */
  function Words(s: string): (r: seq<string>)
    ensures |s| > 0 && !IsSpace(s[0]) ==> |r| > 0 && r[0] != [] && r[0][0] == s[0]
    decreases |s|
  {
    if s == [] then []
    else if IsSpace(s[0]) then Words(s[1..])
    else if |s| == 1 || IsSpace(s[1]) then [[s[0]]] + Words(s[1..])
    else
      var ws := Words(s[1..]);
      [[s[0]] + ws[0]] + ws[1..]
  }

  /** The shape every normalised text has. */
  predicate Canonical(s: string) {
    && (forall i :: 0 <= i < |s| ==> IsLowerAlnum(s[i]) || s[i] == ' ')
    && NoDoubleSpace(s)
    && (|s| > 0 ==> s[0] != ' ' && s[|s| - 1] != ' ')
  }

  /** Every character outside `[a-z0-9\s]` becomes a space; the rest stay. */
  function ReplaceNonText(s: string): (r: string)
    ensures |r| == |s|
    ensures forall i :: 0 <= i < |r| ==> IsLowerAlnum(r[i]) || IsSpace(r[i])
    ensures forall i :: 0 <= i < |s| && (IsLowerAlnum(s[i]) || IsSpace(s[i])) ==> r[i] == s[i]
    ensures forall i :: 0 <= i < |s| && !(IsLowerAlnum(s[i]) || IsSpace(s[i])) ==> r[i] == ' '
  {
    if s == [] then []
    else [if IsLowerAlnum(s[0]) || IsSpace(s[0]) then s[0] else ' '] + ReplaceNonText(s[1..])
  }

  /** Drops leading whitespace. */
  function DropSpaces(s: string): (r: string)
    ensures |r| <= |s| && r == s[|s| - |r|..]
    ensures r == [] || !IsSpace(r[0])
    ensures NonSpace(r) == NonSpace(s)
  {
    if s != [] && IsSpace(s[0]) then
      var r := DropSpaces(s[1..]);
      assert s[1..][|s| - 1 - |r|..] == s[|s| - |r|..];
      r
    else s
  }

  /** Replaces every maximal run of whitespace with one space. */
  function CollapseSpaces(s: string): (r: string)
    ensures forall i :: 0 <= i < |r| && IsSpace(r[i]) ==> r[i] == ' '
    ensures NoDoubleSpace(r)
    ensures |s| > 0 ==> |r| > 0 && (r[0] == ' ' <==> IsSpace(s[0]))
    ensures NonSpace(r) == NonSpace(s)
    decreases |s|
  {
    if s == [] then []
    else if IsSpace(s[0]) then
      var rest := DropSpaces(s[1..]);
      var r := [' '] + CollapseSpaces(rest);
      assert NonSpace(r) == NonSpace(CollapseSpaces(rest));
      r
    else
      var r := [s[0]] + CollapseSpaces(s[1..]);
      assert NonSpace(r) == [s[0]] + NonSpace(CollapseSpaces(s[1..]));
      r
  }

  /** Drops trailing whitespace. */
  function DropTrailingSpaces(s: string): (r: string)
    ensures |r| <= |s| && r == s[..|r|]
    ensures r == [] || !IsSpace(r[|r| - 1])
    ensures forall i :: |r| <= i < |s| ==> IsSpace(s[i])
    ensures NonSpace(r) == NonSpace(s)
  {
    if s != [] && IsSpace(s[|s| - 1]) then
      var r := DropTrailingSpaces(s[..|s| - 1]);
      NonSpaceAppend(s[..|s| - 1], [s[|s| - 1]]);
      assert s == s[..|s| - 1] + [s[|s| - 1]];
      r
    else s
  }

  lemma {:induction false} NonSpaceAppend(a: string, b: string)
    ensures NonSpace(a + b) == NonSpace(a) + NonSpace(b)
  {
    if a != [] {
      NonSpaceAppend(a[1..], b);
      assert (a + b)[1..] == a[1..] + b;
    } else {
      assert a + b == b;
    }
  }

  /** Leading whitespace never changes the words. */
  lemma {:induction false} WordsSkipSpaces(s: string)
    ensures Words(DropSpaces(s)) == Words(s)
    decreases |s|
  {
    if s != [] && IsSpace(s[0]) {
      WordsSkipSpaces(s[1..]);
    }
  }

  /** Trailing whitespace never changes the words. */
  lemma {:induction false} WordsIgnoreTrailingSpaces(a: string, b: string)
    requires forall i :: 0 <= i < |b| ==> IsSpace(b[i])
    ensures Words(a + b) == Words(a)
    decreases |a| + |b|
  {
    if a == [] {
      assert a + b == b;
      if b != [] {
        WordsIgnoreTrailingSpaces(a, b[1..]);
        assert b[1..] == a + b[1..];
      }
    } else {
      assert (a + b)[1..] == a[1..] + b;
      WordsIgnoreTrailingSpaces(a[1..], b);
    }
  }

  /**
    `strings.TrimSpace` on text whose only whitespace is RE2's `\s`: the
    slice of `s` between its leading and trailing whitespace.
   */
  function TrimSpace(s: string): (r: string)
    ensures exists i :: OccursAt(s, r, i)
    ensures r == [] || (!IsSpace(r[0]) && !IsSpace(r[|r| - 1]))
    ensures NonSpace(r) == NonSpace(s)
  {
    var front := DropSpaces(s);
    var r := DropTrailingSpaces(front);
    assert OccursAt(s, r, |s| - |front|);
    r
  }

  /** Collapsing whitespace runs keeps every word and every word boundary. */
  lemma {:induction false} CollapseKeepsWords(s: string)
    ensures Words(CollapseSpaces(s)) == Words(s)
    decreases |s|
  {
    var r := CollapseSpaces(s);
    if s != [] {
      if IsSpace(s[0]) {
        var rest := DropSpaces(s[1..]);
        assert r[1..] == CollapseSpaces(rest);
        CollapseKeepsWords(rest);
        WordsSkipSpaces(s[1..]);
      } else {
        assert r[1..] == CollapseSpaces(s[1..]);
        CollapseKeepsWords(s[1..]);
      }
    }
  }

  /** Dropping leading whitespace leaves nothing only when the text was all whitespace. */
  lemma {:induction false} DropSpacesAllSpace(s: string)
    ensures DropSpaces(s) == [] ==> forall i :: 0 <= i < |s| ==> IsSpace(s[i])
    decreases |s|
  {
    if s != [] && IsSpace(s[0]) {
      DropSpacesAllSpace(s[1..]);
      assert forall i :: 1 <= i < |s| ==> s[i] == s[1..][i - 1];
    }
  }

  /**
    A trailing whitespace run becomes one trailing space as well: the
    collapsed text ends in a space exactly when the input ends in whitespace.
   */
  lemma {:induction false} CollapseKeepsTrailingSpace(s: string)
    ensures var r := CollapseSpaces(s);
      |s| > 0 ==> (r[|r| - 1] == ' ' <==> IsSpace(s[|s| - 1]))
    decreases |s|
  {
    var r := CollapseSpaces(s);
    if s != [] {
      if IsSpace(s[0]) {
        var rest := DropSpaces(s[1..]);
        assert r == [' '] + CollapseSpaces(rest);
        if rest == [] {
          DropSpacesAllSpace(s[1..]);
          assert |s| > 1 ==> s[|s| - 1] == s[1..][|s| - 2];
        } else {
          CollapseKeepsTrailingSpace(rest);
          assert rest[|rest| - 1] == s[|s| - 1];
        }
      } else if |s| > 1 {
        assert r == [s[0]] + CollapseSpaces(s[1..]);
        CollapseKeepsTrailingSpace(s[1..]);
      }
    }
  }

  /** Dropping trailing whitespace keeps every word. */
  lemma DropTrailingKeepsWords(front: string)
    ensures Words(DropTrailingSpaces(front)) == Words(front)
  {
    var r := DropTrailingSpaces(front);
    var tail := front[|r|..];
    assert front == r + tail;
    assert forall i :: 0 <= i < |tail| ==> tail[i] == front[|r| + i];
    WordsIgnoreTrailingSpaces(r, tail);
  }

  /** Trimming keeps every word. */
  lemma {:induction false} TrimKeepsWords(s: string)
    ensures Words(TrimSpace(s)) == Words(s)
  {
    DropTrailingKeepsWords(DropSpaces(s));
    WordsSkipSpaces(s);
  }

  /** Every character kept by `NonSpace` comes from `s` and is not whitespace. */
  lemma {:induction false} NonSpaceFrom(s: string)
    ensures forall c :: c in NonSpace(s) ==> c in s && !IsSpace(c)
  {
    if s != [] {
      NonSpaceFrom(s[1..]);
    }
  }

  /** Every non-whitespace character of `s` survives in `NonSpace(s)`. */
  lemma {:induction false} NonSpaceKeeps(s: string)
    ensures forall k :: 0 <= k < |s| && !IsSpace(s[k]) ==> s[k] in NonSpace(s)
  {
    if s != [] {
      NonSpaceKeeps(s[1..]);
      assert forall k :: 1 <= k < |s| ==> s[k] == s[1..][k - 1];
    }
  }

  /** A slice of a text with the normal alphabet and no double space keeps both. */
  lemma SliceKeepsShape(c: string, r: string, i: int)
    requires OccursAt(c, r, i)
    requires forall k :: 0 <= k < |c| ==> IsLowerAlnum(c[k]) || c[k] == ' '
    requires NoDoubleSpace(c)
    ensures forall k :: 0 <= k < |r| ==> IsLowerAlnum(r[k]) || r[k] == ' '
    ensures NoDoubleSpace(r)
  {
    assert forall k :: 0 <= k < |r| ==> r[k] == c[i + k];
  }

  /**
    The three concrete steps after the deletions: the result has the normal
    shape and keeps exactly the letters and digits of `s`, in order.
   */
  function Canonicalize(s: string): (r: string)
    ensures Canonical(r)
    ensures NonSpace(r) == NonSpace(ReplaceNonText(s))
    ensures Words(r) == Words(ReplaceNonText(s))
  {
    var spaced := ReplaceNonText(s);
    var collapsed := CollapseSpaces(spaced);
    NonSpaceFrom(collapsed);
    NonSpaceFrom(spaced);
    NonSpaceKeeps(collapsed);
    var r := TrimSpace(collapsed);
    CollapseKeepsWords(spaced);
    TrimKeepsWords(collapsed);
    var i :| OccursAt(collapsed, r, i);
    SliceKeepsShape(collapsed, r, i);
    r
  }

  /** `normalizeText`. */
  function Normalize(sc: Scrubbers, text: string): (r: string)
    ensures Canonical(r)
  {
    Canonicalize(sc.stripPhones(sc.stripEmails(sc.stripUrls(Lower(text)))))
  }

  lemma {:induction false} CollapseFixesCanonical(s: string)
    requires forall i :: 0 <= i < |s| ==> IsLowerAlnum(s[i]) || s[i] == ' '
    requires NoDoubleSpace(s)
    ensures CollapseSpaces(s) == s
    decreases |s|
  {
    if s != [] {
      CollapseFixesCanonical(s[1..]);
      if IsSpace(s[0]) {
        assert DropSpaces(s[1..]) == s[1..];
      }
    }
  }

  /** The concrete steps change nothing on a text that already has the normal shape. */
  lemma CanonicalizeFixesCanonical(s: string)
    requires Canonical(s)
    ensures Canonicalize(s) == s
  {
    assert ReplaceNonText(s) == s;
    CollapseFixesCanonical(s);
    assert DropSpaces(s) == s;
    assert DropTrailingSpaces(s) == s;
  }

  /** Lower-casing leaves a text in normal form unchanged. */
  lemma CanonicalIsLower(n: string)
    requires Canonical(n)
    ensures Lower(n) == n
  {
    assert forall i :: 0 <= i < |n| ==> !IsUpper(n[i]);
  }

  /**
    Normalising twice gives the same text exactly when the deletions leave the
    normal form alone. They need not: "123.456.789" survives the phone rule
    (the dots break the digit run), its dots then become spaces, and a second
    pass deletes the whole run.
   */
  lemma NormalizeIdempotentWhenDeletionsInert(sc: Scrubbers, text: string)
    requires var n := Normalize(sc, text);
      sc.stripUrls(n) == n && sc.stripEmails(n) == n && sc.stripPhones(n) == n
    ensures Normalize(sc, Normalize(sc, text)) == Normalize(sc, text)
  {
    var n := Normalize(sc, text);
    CanonicalIsLower(n);
    CanonicalizeFixesCanonical(n);
  }
}
