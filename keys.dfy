/**
 * Key handling of the wiki board: Java's String.trim and toLowerCase,
 * the board's normalize and webalize, and the truncation of keys to
 * keyLength characters.
 */
module Keys {
  import opened Wrappers

  /** keyLength: the width of a page key in the current table. */
  const KeyLength: nat := 64

  /** String.trim removes every leading and trailing character whose code is at most U+0020. */
  predicate IsBlank(c: char) {
    c <= ' '
  }

  predicate IsTrimmed(s: string) {
    |s| == 0 || (!IsBlank(s[0]) && !IsBlank(s[|s| - 1]))
  }

  /** Lower-casing is modelled on the ASCII letters; every other character maps to itself. */
  predicate IsUpper(c: char) {
    'A' <= c <= 'Z'
  }

  predicate IsLowered(s: string) {
    forall i :: 0 <= i < |s| ==> !IsUpper(s[i])
  }

  /** A normalized key: trimmed and lower-case. */
  predicate IsNormal(s: string) {
    IsTrimmed(s) && IsLowered(s)
  }

  /** The first index at or after k that is not a blank (|s| when there is none): trim's st. */
  function SkipBlanks(s: string, k: nat): (n: nat)
    requires k <= |s|
    ensures k <= n <= |s|
    ensures forall j :: k <= j < n ==> IsBlank(s[j])
    ensures n == |s| || !IsBlank(s[n])
    decreases |s| - k
  {
    if k < |s| && IsBlank(s[k]) then SkipBlanks(s, k + 1) else k
  }

  /** The end left once the blanks before m, down to lo, are dropped: trim's len. */
  function DropBlanks(s: string, lo: nat, m: nat): (n: nat)
    requires lo <= m <= |s|
    ensures lo <= n <= m
    ensures forall j :: n <= j < m ==> IsBlank(s[j])
    ensures n == lo || !IsBlank(s[n - 1])
  {
    if lo < m && IsBlank(s[m - 1]) then DropBlanks(s, lo, m - 1) else m
  }

  /** String.trim: the result has no blank at either end, and a trimmed string is left alone. */
  function Trim(s: string): (r: string)
    ensures |r| <= |s|
    ensures IsTrimmed(r)
    ensures IsTrimmed(s) ==> r == s
  {
    var st := SkipBlanks(s, 0);
    s[st..DropBlanks(s, st, |s|)]
  }

  /** String.trim keeps the run of s left once the blanks at both ends are removed. */
  lemma TrimRun(s: string)
    ensures var i, r := SkipBlanks(s, 0), Trim(s);
      && i + |r| <= |s|
      && (forall j :: 0 <= j < |r| ==> r[j] == s[i + j])
      && (forall j :: 0 <= j < i ==> IsBlank(s[j]))
      && (forall j :: i + |r| <= j < |s| ==> IsBlank(s[j]))
  {
  }

  function LowerChar(c: char): (d: char)
    ensures !IsUpper(d)
    ensures IsBlank(d) <==> IsBlank(c)
    ensures !IsUpper(c) ==> d == c
  {
    if IsUpper(c) then (c as int + 32) as char else c
  }

  function ToLower(s: string): (r: string)
    ensures |r| == |s|
    ensures forall i :: 0 <= i < |s| ==> r[i] == LowerChar(s[i])
  {
    seq(|s|, i requires 0 <= i < |s| => LowerChar(s[i]))
  }

  lemma ToLowerNormal(s: string)
    ensures IsLowered(ToLower(s))
    ensures IsTrimmed(s) ==> IsTrimmed(ToLower(s))
    ensures IsLowered(s) ==> ToLower(s) == s
  {
    var r := ToLower(s);
    if |s| > 0 {
      assert IsBlank(r[0]) <==> IsBlank(s[0]);
      assert IsBlank(r[|s| - 1]) <==> IsBlank(s[|s| - 1]);
    }
  }

  /** normalize: a null key becomes "null", any other is trimmed and lower-cased. */
  function Normalize(key: Option<string>): (r: string)
    ensures IsNormal(r)
    ensures key == None ==> r == "null"
    ensures key.Some? && IsNormal(key.value) ==> r == key.value
    ensures key.Some? ==> |r| <= |key.value|
  {
    match key
    case None => "null"
    case Some(s) =>
      ToLowerNormal(Trim(s));
      ToLower(Trim(s))
  }

  lemma NormalizeIdempotent(key: Option<string>)
    ensures Normalize(Some(Normalize(key))) == Normalize(key)
  {
  }

  /** The prefix of s of length at most n, as the board's `substring(0, keyLength)` truncation. */
  function Truncate(s: string, n: nat): (r: string)
    ensures r <= s
    ensures |r| == if |s| <= n then |s| else n
  {
    if |s| > n then s[..n] else s
  }

  /** String.indexOf: the first position of c in s, or -1. */
  function IndexOf(s: string, c: char): (p: int)
    ensures -1 <= p < |s|
    ensures p == -1 <==> c !in s
    ensures 0 <= p ==> s[p] == c && c !in s[..p]
  {
    if |s| == 0 then -1
    else if s[0] == c then 0
    else
      var q := IndexOf(s[1..], c);
      assert s == [s[0]] + s[1..];
      if q < 0 then -1 else q + 1
  }

  function CountOf(s: string, c: char): nat {
    if |s| == 0 then 0 else (if s[0] == c then 1 else 0) + CountOf(s[1..], c)
  }

  /** Every space of s replaced by "%20". */
  function Escape(s: string): (r: string)
    ensures ' ' !in r
    ensures |r| == |s| + 2 * CountOf(s, ' ')
  {
    if |s| == 0 then "" else (if s[0] == ' ' then "%20" else [s[0]]) + Escape(s[1..])
  }

  lemma {:induction false} CountOfConcat(a: string, b: string, c: char)
    ensures CountOf(a + b, c) == CountOf(a, c) + CountOf(b, c)
  {
    if |a| > 0 {
      assert (a + b)[1..] == a[1..] + b;
      CountOfConcat(a[1..], b, c);
    } else {
      assert a + b == b;
    }
  }

  lemma {:induction false} EscapeConcat(a: string, b: string)
    ensures Escape(a + b) == Escape(a) + Escape(b)
  {
    if |a| > 0 {
      assert (a + b)[1..] == a[1..] + b;
      EscapeConcat(a[1..], b);
    } else {
      assert a + b == b;
    }
  }

  lemma {:induction false} EscapeWithoutSpace(s: string)
    requires ' ' !in s
    ensures Escape(s) == s
  {
    if |s| > 0 {
      assert s[0] != ' ';
      EscapeWithoutSpace(s[1..]);
    }
  }

  /** Replacing the space at p by "%20" keeps the escaped form and removes one space. */
  lemma EscapeSpaceStep(k: string, p: nat)
    requires p < |k| && k[p] == ' '
    ensures Escape(k[..p] + "%20" + k[p + 1..]) == Escape(k)
    ensures CountOf(k[..p] + "%20" + k[p + 1..], ' ') + 1 == CountOf(k, ' ')
  {
    SplitAt(k, p);
    EscapeSplice(k[..p], k[p + 1..]);
    CountSplice(k[..p], k[p + 1..]);
  }

  lemma SplitAt(k: string, p: nat)
    requires p < |k|
    ensures k == k[..p] + [k[p]] + k[p + 1..]
  {
  }

  lemma EscapeSplice(a: string, b: string)
    ensures Escape(a + "%20" + b) == Escape(a + [' '] + b)
  {
    var esc := "%20";
    assert Escape([' ']) == esc by {
      assert [' '][1..] == [];
    }
    EscapeWithoutSpace(esc);
    EscapeConcat(a + [' '], b);
    EscapeConcat(a, [' ']);
    EscapeConcat(a + esc, b);
    EscapeConcat(a, esc);
  }

  lemma CountSplice(a: string, b: string)
    ensures CountOf(a + "%20" + b, ' ') + 1 == CountOf(a + [' '] + b, ' ')
  {
    var esc := "%20";
    assert CountOf([' '], ' ') == 1 by {
      assert [' '][1..] == [];
    }
    assert CountOf(esc, ' ') == 0 by {
      assert esc[1..] == "20" && esc[1..][1..] == "0" && esc[1..][1..][1..] == [];
    }
    CountOfConcat(a + [' '], b, ' ');
    CountOfConcat(a, [' '], ' ');
    CountOfConcat(a + esc, b, ' ');
    CountOfConcat(a, esc, ' ');
  }

  /**
   * webalize: normalize the key, then rewrite it in place, one space at a
   * time, until no space is left.
   */
  method Webalize(key: Option<string>) returns (r: string)
    ensures r == Escape(Normalize(key))
    ensures ' ' !in r
  {
    if key == None {
      EscapeWithoutSpace("null");
      return "null";
    }
    var k := ToLower(Trim(key.value));
    var p := IndexOf(k, ' ');
    while p >= 0
      invariant p == IndexOf(k, ' ')
      invariant Escape(k) == Escape(Normalize(key))
      decreases CountOf(k, ' ')
    {
      var next := k[..p] + "%20" + k[p + 1..];
      EscapeSpaceStep(k, p);
      k := next;
      p := IndexOf(k, ' ');
    }
    EscapeWithoutSpace(k);
    r := k;
  }
}
