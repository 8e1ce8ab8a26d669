/** The .NET string operations the core relies on, stated over `seq<char>`:
    ordinal `String.Replace` of a one-character pattern, `String.Join`,
    `String.Contains`, decimal formatting of an `int`, and a `StringWriter`. */
module Text {
  import opened Wrappers

  // ---------------------------------------------------------------------
  // Counting, removing and replacing one character
  // ---------------------------------------------------------------------

  /** Number of occurrences of `c` in `s`. */
  function Count(s: string, c: char): (n: nat)
    ensures n <= |s|
    ensures n == 0 <==> c !in s
  {
    if s == [] then 0 else (if s[0] == c then 1 else 0) + Count(s[1..], c)
  }

  /** `s` with every `c` removed: what is left once a character is ignored. */
  function Strip(s: string, c: char): (t: string)
    ensures c !in t
    ensures |t| == |s| - Count(s, c)
  {
    if s == [] then [] else (if s[0] == c then [] else [s[0]]) + Strip(s[1..], c)
  }

  /** `s` with every occurrence of `c` replaced by `r`, scanning left to right. */
  function Replace(s: string, c: char, r: string): string
  {
    if s == [] then [] else (if s[0] == c then r else [s[0]]) + Replace(s[1..], c, r)
  }

  /** `n` copies of the character `c`. */
  function Repeat(c: char, n: nat): (t: string)
    ensures |t| == n
    ensures forall i :: 0 <= i < n ==> t[i] == c
  {
    if n == 0 then [] else [c] + Repeat(c, n - 1)
  }

  /** Reads each run of `n` copies of `c` back as one `c`: the decoder of
      `Replace(_, c, Repeat(c, n))`. */
  function Collapse(s: string, c: char, n: nat): string
    requires n >= 1
    decreases |s|
  {
    if s == [] then []
    else if s[0] == c then [c] + Collapse(s[if n <= |s| then n else |s|..], c, n)
    else [s[0]] + Collapse(s[1..], c, n)
  }

  /** A string without `c` is left unchanged by replacing `c`. */
  lemma {:induction false} ReplaceAbsent(s: string, c: char, r: string)
    requires c !in s
    ensures Replace(s, c, r) == s
  {
    if s != [] {
      ReplaceAbsent(s[1..], c, r);
    }
  }

  /** Replacement works character by character, so it distributes over `+`. */
  lemma {:induction false} ReplaceAppend(a: string, b: string, c: char, r: string)
    ensures Replace(a + b, c, r) == Replace(a, c, r) + Replace(b, c, r)
  {
    if a == [] {
      assert a + b == b;
    } else {
      assert (a + b)[0] == a[0];
      assert (a + b)[1..] == a[1..] + b;
      ReplaceAppend(a[1..], b, c, r);
    }
  }

  /** Length law: each `c` grows from one character to `|r|`. */
  lemma {:induction false} ReplaceLength(s: string, c: char, r: string)
    ensures |Replace(s, c, r)| == |s| + Count(s, c) * (|r| - 1)
  {
    if s != [] {
      ReplaceLength(s[1..], c, r);
      var k, m := Count(s[1..], c), |r| - 1;
      var rest := Replace(s[1..], c, r);
      assert |rest| == |s| - 1 + k * m;
      if s[0] == c {
        assert Replace(s, c, r) == r + rest;
        assert Count(s, c) == k + 1;
        MulSucc(k, m);
      } else {
        assert Replace(s, c, r) == [s[0]] + rest;
        assert Count(s, c) == k;
      }
    }
  }

  /** A character occurs in the result iff it is a kept character of `s`,
      or `s` had a `c` and the character occurs in `r`. */
  lemma {:induction false} ReplaceMembership(s: string, c: char, r: string, x: char)
    ensures x in Replace(s, c, r) <==> (x != c && x in s) || (c in s && x in r)
  {
    if s != [] {
      ReplaceMembership(s[1..], c, r, x);
      assert s == [s[0]] + s[1..];
    }
  }

  lemma MulSucc(k: int, m: int)
    ensures (k + 1) * m == k * m + m
  {
  }

  /** Replacing `c` by copies of itself keeps every other character in
      order: ignoring `c`, nothing changed. */
  lemma {:induction false} ReplaceByCopiesStrip(s: string, c: char, n: nat)
    ensures Strip(Replace(s, c, Repeat(c, n)), c) == Strip(s, c)
  {
    if s != [] {
      var rest := Replace(s[1..], c, Repeat(c, n));
      ReplaceByCopiesStrip(s[1..], c, n);
      if s[0] == c {
        assert Replace(s, c, Repeat(c, n)) == Repeat(c, n) + rest;
        StripCountAppend(Repeat(c, n), rest, c);
        RepeatStripCount(c, n);
      } else {
        assert Replace(s, c, Repeat(c, n)) == [s[0]] + rest;
        StripCountAppend([s[0]], rest, c);
        assert [s[0]][1..] == [];
      }
    }
  }

  /** Replacing `c` by `n` copies of itself multiplies the number of `c` by `n`. */
  lemma {:induction false} ReplaceByCopiesCount(s: string, c: char, n: nat)
    ensures Count(Replace(s, c, Repeat(c, n)), c) == Count(s, c) * n
  {
    if s != [] {
      var rest := Replace(s[1..], c, Repeat(c, n));
      var k := Count(s[1..], c);
      ReplaceByCopiesCount(s[1..], c, n);
      if s[0] == c {
        assert Replace(s, c, Repeat(c, n)) == Repeat(c, n) + rest;
        StripCountAppend(Repeat(c, n), rest, c);
        RepeatStripCount(c, n);
        assert Count(s, c) == k + 1;
        assert Count(Replace(s, c, Repeat(c, n)), c) == n + k * n;
        MulSucc(k, n);
      } else {
        assert Replace(s, c, Repeat(c, n)) == [s[0]] + rest;
        StripCountAppend([s[0]], rest, c);
        assert [s[0]][1..] == [];
        assert Count(s, c) == k;
      }
    }
  }

  /** `Strip` and `Count` split over `+`. */
  lemma {:induction false} StripCountAppend(a: string, b: string, c: char)
    ensures Strip(a + b, c) == Strip(a, c) + Strip(b, c)
    ensures Count(a + b, c) == Count(a, c) + Count(b, c)
  {
    if a == [] {
      assert a + b == b;
    } else {
      assert (a + b)[0] == a[0];
      assert (a + b)[1..] == a[1..] + b;
      StripCountAppend(a[1..], b, c);
    }
  }

  /** A run of `c` holds nothing but `c`. */
  lemma {:induction false} RepeatStripCount(c: char, n: nat)
    ensures Strip(Repeat(c, n), c) == []
    ensures Count(Repeat(c, n), c) == n
  {
    if n > 0 {
      RepeatStripCount(c, n - 1);
    }
  }

  /** Round trip: collapsing the runs written by `Replace` gives back `s`. */
  lemma {:induction false} CollapseReplace(s: string, c: char, n: nat)
    requires n >= 1
    ensures Collapse(Replace(s, c, Repeat(c, n)), c, n) == s
  {
    if s != [] {
      var rest := Replace(s[1..], c, Repeat(c, n));
      var t := Replace(s, c, Repeat(c, n));
      CollapseReplace(s[1..], c, n);
      if s[0] == c {
        assert t == Repeat(c, n) + rest;
        assert t[0] == c;
        assert t[n..] == rest;
      } else {
        assert t == [s[0]] + rest;
        assert t[1..] == rest;
      }
    }
  }

  // ---------------------------------------------------------------------
  // Joining and searching
  // ---------------------------------------------------------------------

  /** `String.Join(sep, xs)`: the elements of `xs` with `sep` between neighbours. */
  function Join(sep: string, xs: seq<string>): string
  {
    if |xs| == 0 then ""
    else if |xs| == 1 then xs[0]
    else xs[0] + sep + Join(sep, xs[1..])
  }

  /** Appending an element to a non-empty list appends `sep` and the element. */
  lemma {:induction false} JoinSnoc(sep: string, xs: seq<string>, y: string)
    requires xs != []
    ensures Join(sep, xs + [y]) == Join(sep, xs) + sep + y
  {
    assert (xs + [y])[0] == xs[0];
    assert (xs + [y])[1..] == xs[1..] + [y];
    if |xs| > 1 {
      JoinSnoc(sep, xs[1..], y);
    }
  }

  /** `t` occurs in `s` (`String.Contains`, ordinal). */
  predicate Contains(s: string, t: string)
  {
    exists i :: 0 <= i <= |s| && t <= s[i..]
  }

  /** `s` ends with `t`. */
  predicate EndsWith(s: string, t: string)
  {
    |t| <= |s| && s[|s| - |t|..] == t
  }

  /** Every text ends with itself. */
  lemma EndsWithSelf(t: string)
    ensures EndsWith(t, t)
  {
    assert t[0..] == t;
  }

  /** Putting text in front keeps a suffix. */
  lemma EndsWithRight(a: string, s: string, t: string)
    requires EndsWith(s, t)
    ensures EndsWith(a + s, t)
  {
    assert (a + s)[|a + s| - |t|..] == s[|s| - |t|..];
  }

  /** Anything written between two strings occurs in the result. */
  lemma ContainsInfix(p: string, t: string, q: string)
    ensures Contains(p + t + q, t)
  {
    var s := p + t + q;
    assert s[|p|..] == t + q;
    assert t <= s[|p|..];
  }

  /** Occurrence is transitive. */
  lemma ContainsTransitive(s: string, t: string, u: string)
    requires Contains(s, t) && Contains(t, u)
    ensures Contains(s, u)
  {
    var i :| 0 <= i <= |s| && t <= s[i..];
    var j :| 0 <= j <= |t| && u <= t[j..];
    assert i + j <= |s|;
    forall k | 0 <= k < |u|
      ensures u[k] == s[i + j..][k]
    {
      assert u[k] == t[j + k] == s[i..][j + k];
    }
    assert u <= s[i + j..];
  }

  /** A prefix of `s` occurs in `s`. */
  lemma ContainsPrefix(s: string, t: string)
    requires t <= s
    ensures Contains(s, t)
  {
    assert s[0..] == s;
  }

  /** What occurs in the right part occurs in the whole. */
  lemma ContainsRight(a: string, b: string, t: string)
    requires Contains(b, t)
    ensures Contains(a + b, t)
  {
    var i :| 0 <= i <= |b| && t <= b[i..];
    assert (a + b)[|a| + i..] == b[i..];
  }

  /** A string occurs at the start of anything it begins. */
  lemma ContainsStart(t: string, b: string)
    ensures Contains(t + b, t)
  {
    assert (t + b)[0..] == t + b;
  }

  /** Cancelling a common prefix. */
  lemma PrefixCancel(a: string, x: string, y: string)
    requires a + x == a + y
    ensures x == y
  {
    assert x == (a + x)[|a|..];
    assert y == (a + y)[|a|..];
  }

  /** Cancelling a common suffix. */
  lemma SuffixCancel(x: string, y: string, b: string)
    requires x + b == y + b
    ensures x == y
  {
    assert |x| == |y|;
    assert x == (x + b)[..|x|];
    assert y == (y + b)[..|y|];
  }

  // ---------------------------------------------------------------------
  // Decimal rendering of integers
  // ---------------------------------------------------------------------

  predicate IsDigit(ch: char)
  {
    '0' <= ch <= '9'
  }

  function DigitChar(d: nat): (ch: char)
    requires d < 10
    ensures IsDigit(ch)
  {
    (('0' as int) + d) as char
  }

  function DigitValue(ch: char): nat
    requires IsDigit(ch)
  {
    (ch as int) - ('0' as int)
  }

  /** Decimal digits of `n`, most significant first, no leading zero. */
  function NatToString(n: nat): (s: string)
    ensures |s| >= 1
    ensures forall i :: 0 <= i < |s| ==> IsDigit(s[i])
    ensures s[0] == '0' ==> n == 0
  {
    if n < 10 then [DigitChar(n)] else NatToString(n / 10) + [DigitChar(n % 10)]
  }

  /** `int.ToString()` with the invariant culture: a `-` sign, then the digits. */
  function IntToString(n: int): string
  {
    if n < 0 then "-" + NatToString(-n) else NatToString(n)
  }

  /** Reads a string of decimal digits; the reference partner of `NatToString`. */
  function ParseNat(s: string): nat
    requires forall i :: 0 <= i < |s| ==> IsDigit(s[i])
  {
    if s == [] then 0 else ParseNat(s[..|s| - 1]) * 10 + DigitValue(s[|s| - 1])
  }

  /** Reads an optional `-` and decimal digits. */
  function ParseInt(s: string): int
    requires |s| > 0 && (s[0] == '-' || IsDigit(s[0]))
    requires forall i :: 1 <= i < |s| ==> IsDigit(s[i])
  {
    if s[0] == '-' then -(ParseNat(s[1..]) as int) else ParseNat(s)
  }

  lemma {:induction false} ParseNatToString(n: nat)
    ensures ParseNat(NatToString(n)) == n
  {
    if n >= 10 {
      var s := NatToString(n);
      ParseNatToString(n / 10);
      assert s[..|s| - 1] == NatToString(n / 10);
    }
  }

  /** Round trip of the decimal rendering, sign included. */
  lemma ParseIntToString(n: int)
    ensures var s := IntToString(n);
      |s| > 0 && (s[0] == '-' || IsDigit(s[0])) &&
      (forall i :: 1 <= i < |s| ==> IsDigit(s[i])) &&
      ParseInt(s) == n
  {
    if n < 0 {
      var s := IntToString(n);
      assert s[1..] == NatToString(-n);
      ParseNatToString(-n);
    } else {
      ParseNatToString(n);
    }
  }

  /** Distinct integers are rendered differently. */
  lemma IntToStringInjective(m: int, n: int)
    requires IntToString(m) == IntToString(n)
    ensures m == n
  {
    ParseIntToString(m);
    ParseIntToString(n);
  }

  // ---------------------------------------------------------------------
  // StringWriter
  // ---------------------------------------------------------------------

  /** What `TextWriter.Write(string)` appends: the text, or nothing for null. */
  function Data(x: Option<string>): string
  {
    match x
    case Some(s) => s
    case None => ""
  }

  /** The text a fresh `StringWriter` holds after `Write` of each element of
      `xs` in order. */
  function Written(xs: seq<Option<string>>): string
  {
    if xs == [] then "" else Written(xs[..|xs| - 1]) + Data(xs[|xs| - 1])
  }

  /** Writing is concatenation with no separator, so it splits over `+`. */
  lemma {:induction false} WrittenAppend(xs: seq<Option<string>>, ys: seq<Option<string>>)
    ensures Written(xs + ys) == Written(xs) + Written(ys)
    decreases |ys|
  {
    if ys == [] {
      assert xs + ys == xs;
    } else {
      var zs := xs + ys;
      var init := ys[..|ys| - 1];
      var last := ys[|ys| - 1];
      assert zs[..|zs| - 1] == xs + init;
      assert zs[|zs| - 1] == last;
      assert Written(zs) == Written(xs + init) + Data(last);
      WrittenAppend(xs, init);
      assert Written(ys) == Written(init) + Data(last);
    }
  }

  /** Every non-null element written occurs in the written text. */
  lemma {:induction false} WrittenContains(xs: seq<Option<string>>, k: nat)
    requires k < |xs| && xs[k].Some?
    ensures Contains(Written(xs), xs[k].value)
    decreases |xs|
  {
    var init := xs[..|xs| - 1];
    if k == |xs| - 1 {
      ContainsInfix(Written(init), xs[k].value, "");
      assert Written(init) + xs[k].value + "" == Written(xs);
    } else {
      WrittenContains(init, k);
      ContainsTransitive(Written(xs), Written(init), xs[k].value) by {
        ContainsPrefix(Written(xs), Written(init));
      }
    }
  }

  /** An in-memory text sink (`System.IO.StringWriter`). */
  class StringWriter {
    var text: string

    constructor ()
      ensures text == ""
    {
      text := "";
    }

    /** `Write(string)`: appends the text; a null string writes nothing. */
    method Write(x: Option<string>)
      modifies this
      ensures text == old(text) + Data(x)
    {
      text := text + Data(x);
    }

    /** `ToString()`: everything written so far. */
    function ToString(): string
      reads this
    {
      text
    }
  }
}
