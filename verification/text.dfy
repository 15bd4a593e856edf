/** Clean-up of station names typed by the traveller: whitespace is dropped and
    ASCII capitals are folded to lower case, as the C "C" locale does it. */
module Text {

  /** isspace in the "C" locale: space, tab, newline, vertical tab, form feed, carriage return. */
  predicate IsSpace(c: char) {
    c == ' ' || ('\t' <= c <= '\r')
  }

  predicate IsUpper(c: char) {
    'A' <= c <= 'Z'
  }

  /** tolower in the "C" locale: only 'A'..'Z' change. */
  function ToLower(c: char): (d: char)
    ensures !IsUpper(d)
    ensures IsSpace(d) <==> IsSpace(c)
  {
    if IsUpper(c) then (c as int + 32) as char else c
  }

  /** A lookup key: no whitespace and no capital letter anywhere. */
  predicate IsKey(s: string) {
    forall i :: 0 <= i < |s| ==> !IsSpace(s[i]) && !IsUpper(s[i])
  }

  /** The normalised form of a typed name. */
  function Normalize(s: string): (r: string)
    ensures IsKey(r)
    ensures |r| <= |s|
    decreases |s|
  {
    if |s| == 0 then []
    else if IsSpace(s[0]) then Normalize(s[1..])
    else [ToLower(s[0])] + Normalize(s[1..])
  }

  /** The characters of s that are not whitespace, in their original order. */
  function NonSpace(s: string): (r: string)
    decreases |s|
  {
    if |s| == 0 then []
    else if IsSpace(s[|s| - 1]) then NonSpace(s[..|s| - 1])
    else NonSpace(s[..|s| - 1]) + [s[|s| - 1]]
  }

  /** s with every character passed through ToLower. */
  function Lowered(s: string): (r: string)
  {
    seq(|s|, i requires 0 <= i < |s| => ToLower(s[i]))
  }

  lemma {:induction false} NormalizeConcat(a: string, b: string)
    ensures Normalize(a + b) == Normalize(a) + Normalize(b)
    decreases |a|
  {
    if |a| == 0 {
      assert a + b == b;
    } else {
      assert (a + b)[0] == a[0];
      assert (a + b)[1..] == a[1..] + b;
      NormalizeConcat(a[1..], b);
    }
  }

  lemma NormalizeChar(c: char)
    ensures Normalize([c]) == if IsSpace(c) then [] else [ToLower(c)]
  {
    assert [c][1..] == [];
  }

  /** Normalising is exactly: keep the non-space characters in order, then lower-case them. */
  lemma {:induction false} NormalizeIsLoweredNonSpace(s: string)
    ensures Normalize(s) == Lowered(NonSpace(s))
    decreases |s|
  {
    if |s| == 0 {
    } else {
      var init, last := s[..|s| - 1], s[|s| - 1];
      assert s == init + [last];
      NormalizeConcat(init, [last]);
      NormalizeChar(last);
      NormalizeIsLoweredNonSpace(init);
      if !IsSpace(last) {
        assert Lowered(NonSpace(init) + [last]) == Lowered(NonSpace(init)) + [ToLower(last)];
      }
    }
  }

  /** A string that is already a key is left unchanged. */
  lemma {:induction false} KeyIsFixed(s: string)
    requires IsKey(s)
    ensures Normalize(s) == s
    decreases |s|
  {
    if |s| > 0 {
      assert IsKey(s[1..]) by {
        forall i | 0 <= i < |s[1..]|
          ensures !IsSpace(s[1..][i]) && !IsUpper(s[1..][i])
        {
          assert s[1..][i] == s[i + 1];
        }
      }
      KeyIsFixed(s[1..]);
      assert s == [s[0]] + s[1..];
    }
  }

  /** A blank between two parts of a name is dropped: each part normalises on its own. */
  lemma BlankDropped(a: string, c: char, b: string)
    requires IsSpace(c)
    ensures Normalize(a + [c] + b) == Normalize(a) + Normalize(b)
  {
    NormalizeConcat(a + [c], b);
    NormalizeConcat(a, [c]);
    NormalizeChar(c);
    assert Normalize(a) + [] == Normalize(a);
  }

  /** Two keys separated by a blank normalise to the keys run together. */
  lemma KeysAroundSpace(a: string, c: char, b: string)
    requires IsKey(a) && IsSpace(c) && IsKey(b)
    ensures Normalize(a + [c] + b) == a + b
  {
    BlankDropped(a, c, b);
    KeyIsFixed(a);
    KeyIsFixed(b);
  }

  /** A capital followed by a key: only the capital changes, folded to lower case. */
  lemma CapitalThenKey(c: char, s: string)
    requires IsUpper(c) && IsKey(s)
    ensures Normalize([c] + s) == [ToLower(c)] + s
  {
    NormalizeConcat([c], s);
    NormalizeChar(c);
    KeyIsFixed(s);
  }

  lemma NormalizeIdempotent(s: string)
    ensures Normalize(Normalize(s)) == Normalize(s)
  {
    KeyIsFixed(Normalize(s));
  }

  /** The character loop of the C routine: skip whitespace, copy the rest lower-cased. */
  method NormalizeInput(input: string) returns (r: string)
    ensures r == Normalize(input)
  {
    r := [];
    var i := 0;
    while i < |input|
      invariant 0 <= i <= |input|
      invariant r == Normalize(input[..i])
    {
      assert input[..i + 1] == input[..i] + [input[i]];
      NormalizeConcat(input[..i], [input[i]]);
      NormalizeChar(input[i]);
      if !IsSpace(input[i]) {
        r := r + [ToLower(input[i])];
      }
      i := i + 1;
    }
    assert input[..|input|] == input;
  }
}
