/** The Python string operations the core relies on: `strip`, `split` with an
    explicit separator, `sep.join`, the substring test `in`, `upper` and
    UTF-8 encoding. */
module PyStr {

  /** Whitespace as `str.strip()` sees it for byte strings. */
  predicate IsSpace(c: char)
  {
    c == ' ' || c == '\t' || c == '\n' || c == '\r' || c == '\U{000B}' || c == '\U{000C}'
  }

  /** `s.lstrip()` */
  function LStrip(s: string): (r: string)
    ensures |r| <= |s|
    ensures r == [] || !IsSpace(r[0])
  {
    if s != [] && IsSpace(s[0]) then LStrip(s[1..]) else s
  }

  /** `s.rstrip()` */
  function RStrip(s: string): (r: string)
    ensures |r| <= |s|
    ensures r == [] || !IsSpace(r[|r| - 1])
  {
    if s != [] && IsSpace(s[|s| - 1]) then RStrip(s[..|s| - 1]) else s
  }

  /** `s.strip()` */
  function Strip(s: string): (r: string)
    ensures |r| <= |s|
    ensures r == [] || (!IsSpace(r[0]) && !IsSpace(r[|r| - 1]))
  {
    var l := LStrip(s);
    RStripCut(l);
    RStrip(l)
  }

  /** `lstrip` removes exactly the leading whitespace. */
  lemma {:induction false} LStripCut(s: string)
    ensures var r := LStrip(s);
      && r == s[|s| - |r|..]
      && forall k :: 0 <= k < |s| - |r| ==> IsSpace(s[k])
  {
    if s != [] && IsSpace(s[0]) {
      LStripCut(s[1..]);
    }
  }

  /** `rstrip` removes exactly the trailing whitespace. */
  lemma {:induction false} RStripCut(s: string)
    ensures var r := RStrip(s);
      && r == s[..|r|]
      && forall k :: |r| <= k < |s| ==> IsSpace(s[k])
  {
    if s != [] && IsSpace(s[|s| - 1]) {
      RStripCut(s[..|s| - 1]);
    }
  }

  /** `strip` returns the slice of `s` between its leading and its trailing
      whitespace: everything cut off is whitespace, and what is kept neither
      starts nor ends with it. */
  lemma StripCut(s: string)
    ensures var r := Strip(s); var i := |s| - |LStrip(s)|;
      && 0 <= i && i + |r| <= |s| && r == s[i..i + |r|]
      && (forall k :: 0 <= k < i ==> IsSpace(s[k]))
      && (forall k :: i + |r| <= k < |s| ==> IsSpace(s[k]))
  {
    var l := LStrip(s);
    LStripCut(s);
    RStripCut(l);
    CutOfCut(s, |s| - |l|, l, Strip(s));
  }

  /** A prefix `r` of the suffix `l == s[i..]` is the slice `s[i..i + |r|]`,
      and whatever follows `r` in `l` follows it in `s`. */
  lemma CutOfCut(s: string, i: int, l: string, r: string)
    requires 0 <= i <= |s| && l == s[i..] && |r| <= |l| && r == l[..|r|]
    requires forall k :: |r| <= k < |l| ==> IsSpace(l[k])
    ensures r == s[i..i + |r|]
    ensures forall k :: i + |r| <= k < |s| ==> IsSpace(s[k])
  {
    forall k | i + |r| <= k < |s| ensures IsSpace(s[k]) {
      assert s[k] == l[k - i];
    }
  }

  /** A string that neither starts nor ends with whitespace is its own strip. */
  lemma StripUnchanged(s: string)
    requires s == [] || (!IsSpace(s[0]) && !IsSpace(s[|s| - 1]))
    ensures Strip(s) == s
  {
  }

  /** `sep.join(xs)` for a one-character separator. */
  function Join(xs: seq<string>, sep: char): string
  {
    if |xs| == 0 then ""
    else if |xs| == 1 then xs[0]
    else xs[0] + [sep] + Join(xs[1..], sep)
  }

  /** ASCII pieces joined with an ASCII separator are ASCII. */
  lemma {:induction false} JoinAscii(xs: seq<string>, sep: char)
    requires sep as int < 128
    requires forall i :: 0 <= i < |xs| ==> IsAscii(xs[i])
    ensures IsAscii(Join(xs, sep))
  {
    if |xs| > 1 {
      assert forall i :: 0 <= i < |xs| - 1 ==> xs[1..][i] == xs[i + 1];
      JoinAscii(xs[1..], sep);
    }
  }

  /** `s.split(sep)`: never empty, and no piece holds the separator. */
  function Split(s: string, sep: char): (r: seq<string>)
    ensures |r| >= 1
    ensures forall i :: 0 <= i < |r| ==> sep !in r[i]
  {
    if s == [] then [""]
    else
      var rest := Split(s[1..], sep);
      if s[0] == sep then [""] + rest
      else [[s[0]] + rest[0]] + rest[1..]
  }

  /** Joining the pieces of `s.split(sep)` with the separator gives `s` back. */
  lemma {:induction false} JoinSplit(s: string, sep: char)
    ensures Join(Split(s, sep), sep) == s
  {
    if s != [] {
      JoinSplit(s[1..], sep);
      var rest := Split(s[1..], sep);
      if s[0] == sep {
        assert Join([""] + rest, sep) == [sep] + Join(rest, sep);
      } else {
        var r := [[s[0]] + rest[0]] + rest[1..];
        assert r[1..] == rest[1..];
        assert Split(s, sep) == r;
        if |rest| > 1 {
          assert Join(r, sep) == [s[0]] + rest[0] + [sep] + Join(rest[1..], sep);
        }
      }
    }
  }

  /** Number of occurrences of `c` in `s`. */
  function Count(s: string, c: char): nat
  {
    if s == [] then 0 else (if s[0] == c then 1 else 0) + Count(s[1..], c)
  }

  lemma {:induction false} SplitCount(s: string, sep: char)
    ensures |Split(s, sep)| == Count(s, sep) + 1
  {
    if s != [] {
      SplitCount(s[1..], sep);
    }
  }

  lemma {:induction false} SplitWithoutSeparator(s: string, sep: char)
    requires sep !in s
    ensures Split(s, sep) == [s]
  {
    if s != [] {
      SplitWithoutSeparator(s[1..], sep);
      assert [s[0]] + s[1..] == s;
    }
  }

  lemma {:induction false} SplitAtSeparator(a: string, b: string, sep: char)
    requires sep !in a
    ensures Split(a + [sep] + b, sep) == [a] + Split(b, sep)
  {
    if a == [] {
      assert a + [sep] + b == [sep] + b;
      assert ([sep] + b)[1..] == b;
    } else {
      var s := a + [sep] + b;
      assert s[1..] == a[1..] + [sep] + b;
      SplitAtSeparator(a[1..], b, sep);
      assert [a[0]] + a[1..] == a;
    }
  }

  /** `sep.join` is inverted by `split` when no piece holds the separator. */
  lemma {:induction false} SplitJoin(xs: seq<string>, sep: char)
    requires |xs| >= 1
    requires forall i :: 0 <= i < |xs| ==> sep !in xs[i]
    ensures Split(Join(xs, sep), sep) == xs
  {
    if |xs| == 1 {
      SplitWithoutSeparator(xs[0], sep);
    } else {
      SplitJoin(xs[1..], sep);
      SplitAtSeparator(xs[0], Join(xs[1..], sep), sep);
      assert [xs[0]] + xs[1..] == xs;
    }
  }

  /** `Join` splits off its last piece. */
  lemma {:induction false} JoinLast(xs: seq<string>, sep: char)
    requires |xs| >= 2
    ensures Join(xs, sep) == Join(xs[..|xs| - 1], sep) + [sep] + xs[|xs| - 1]
  {
    if |xs| > 2 {
      JoinLast(xs[1..], sep);
      assert xs[1..][..|xs| - 2] == xs[..|xs| - 1][1..];
    }
  }

  /** `s.split(sep)[0]`: the text before the first separator. */
  lemma SplitFirst(s: string, sep: char)
    ensures var h := Split(s, sep)[0];
      |h| <= |s| && h == s[..|h|] && sep !in h && (|h| < |s| ==> s[|h|] == sep)
  {
    var r := Split(s, sep);
    JoinSplit(s, sep);
    if |r| >= 2 {
      assert Join(r, sep) == r[0] + [sep] + Join(r[1..], sep);
    }
  }

  /** `s.split(sep)[-1]`: the text after the last separator. */
  lemma SplitLast(s: string, sep: char)
    ensures var t := Split(s, sep)[|Split(s, sep)| - 1];
      |t| <= |s| && t == s[|s| - |t|..] && sep !in t && (|t| < |s| ==> s[|s| - |t| - 1] == sep)
  {
    var r := Split(s, sep);
    JoinSplit(s, sep);
    if |r| >= 2 {
      JoinLast(r, sep);
      var front := Join(r[..|r| - 1], sep);
      assert s == front + [sep] + r[|r| - 1];
      assert s[|s| - |r[|r| - 1]| - 1] == ([sep] + r[|r| - 1])[0];
    }
  }

  predicate IsPrefix(p: string, s: string)
  {
    |p| <= |s| && s[..|p|] == p
  }

  /** `sub` occurs in `s` starting at index `i`. */
  predicate OccursAt(s: string, sub: string, i: nat)
  {
    i + |sub| <= |s| && s[i..i + |sub|] == sub
  }

  /** `sub in s` */
  function Contains(s: string, sub: string): (b: bool)
    ensures b <==> exists i: nat :: OccursAt(s, sub, i)
  {
    if IsPrefix(sub, s) then
      assert OccursAt(s, sub, 0);
      true
    else if s == [] then
      false
    else
      var b := Contains(s[1..], sub);
      assert b ==> OccursAt(s, sub, 0) || exists i: nat :: OccursAt(s, sub, i) by {
        if b {
          var i: nat :| OccursAt(s[1..], sub, i);
          assert s[i + 1..i + 1 + |sub|] == s[1..][i..i + |sub|];
          assert OccursAt(s, sub, i + 1);
        }
      }
      assert (exists i: nat :: OccursAt(s, sub, i)) ==> b by {
        if exists i: nat :: OccursAt(s, sub, i) {
          var i: nat :| OccursAt(s, sub, i);
          assert i != 0;
          assert s[1..][i - 1..i - 1 + |sub|] == s[i..i + |sub|];
          assert OccursAt(s[1..], sub, i - 1);
        }
      }
      b
  }

  function UpperChar(c: char): (u: char)
    ensures 'a' <= c <= 'z' ==> u as int == c as int - 32 && 'A' <= u <= 'Z'
    ensures !('a' <= c <= 'z') ==> u == c
  {
    if 'a' <= c <= 'z' then (c as int - 32) as char else c
  }

  /** `s.upper()` for byte strings: ASCII letters only. */
  function Upper(s: string): (r: string)
    ensures |r| == |s|
    ensures forall i :: 0 <= i < |s| ==> r[i] == UpperChar(s[i])
  {
    if s == [] then [] else [UpperChar(s[0])] + Upper(s[1..])
  }

  predicate IsByteString(s: string)
  {
    forall i :: 0 <= i < |s| ==> s[i] as int < 256
  }

  predicate IsAscii(s: string)
  {
    forall i :: 0 <= i < |s| ==> s[i] as int < 128
  }

  /** The position of the first character outside ASCII, where the ASCII
      codec stops. */
  function FirstNonAscii(s: string): (i: nat)
    requires !IsAscii(s)
    ensures i < |s| && s[i] as int >= 128
    ensures IsAscii(s[..i])
  {
    if s[0] as int >= 128 then 0
    else
      var j := FirstNonAscii(s[1..]);
      assert s[..j + 1] == [s[0]] + s[1..][..j];
      j + 1
  }

  function Byte(n: int): (c: char)
    requires 0 <= n < 256
    ensures c as int == n
  {
    n as char
  }

  /** The UTF-8 encoding of one code point, one char per byte. */
  function Utf8Char(c: char): (r: string)
    ensures 1 <= |r| <= 4 && IsByteString(r)
    ensures (c as int < 128) <==> r == [c]
  {
    var n := c as int;
    if n < 0x80 then [c]
    else if n < 0x800 then [Byte(0xC0 + n / 64), Byte(0x80 + n % 64)]
    else if n < 0x10000 then [Byte(0xE0 + n / 4096), Byte(0x80 + (n / 64) % 64), Byte(0x80 + n % 64)]
    else [Byte(0xF0 + n / 262144), Byte(0x80 + (n / 4096) % 64), Byte(0x80 + (n / 64) % 64), Byte(0x80 + n % 64)]
  }

  /** `u.encode('utf-8')` */
  function Utf8(u: string): (r: string)
    ensures IsByteString(r)
    ensures |r| >= |u|
  {
    if u == [] then [] else Utf8Char(u[0]) + Utf8(u[1..])
  }

  /** Encoding leaves ASCII text as it is. */
  lemma {:induction false} Utf8Ascii(u: string)
    requires IsAscii(u)
    ensures Utf8(u) == u
  {
    if u != [] {
      Utf8Ascii(u[1..]);
      assert [u[0]] + u[1..] == u;
    }
  }
}
