/**
 * The few JavaScript string built-ins the converter relies on, as functions
 * on `seq<char>`: `indexOf`, `split`, `join`, `slice`, `replaceAll`,
 * `replace` (first occurrence only) and the decimal rendering of an integer
 * inside a template literal.
 */
module Text {

  /** A helper for the emitters' loops: `f` applied to every element, in order. */
  function Map<A, B>(f: A -> B, xs: seq<A>): (ys: seq<B>)
    ensures |ys| == |xs|
  {
    if xs == [] then [] else Map(f, xs[..|xs| - 1]) + [f(xs[|xs| - 1])]
  }

  /** The `i`-th result is `f` of the `i`-th element. */
  lemma {:induction false} MapAt<A, B>(f: A -> B, xs: seq<A>)
    ensures forall i | 0 <= i < |xs| :: Map(f, xs)[i] == f(xs[i])
  {
    if xs != [] {
      MapAt(f, xs[..|xs| - 1]);
    }
  }

  /** Concatenation is associative. */
  lemma ConcatAssoc<T>(x: seq<T>, y: seq<T>, z: seq<T>)
    ensures x + (y + z) == x + y + z
  {
  }

  /** `s.indexOf(c)`: the position of the first `c` in `s`, or -1. */
  function IndexOf(s: string, c: char): (k: int)
    ensures -1 <= k < |s|
    ensures k < 0 <==> c !in s
    ensures k >= 0 ==> s[k] == c && c !in s[..k]
  {
    if |s| == 0 then -1
    else if s[0] == c then 0
    else
      var j := IndexOf(s[1..], c);
      assert j >= 0 ==> s[..j + 1] == [s[0]] + s[1..][..j];
      if j < 0 then -1 else j + 1
  }

  /** The first separator after a separator-free prefix is found right there. */
  lemma {:induction false} IndexOfAfterPrefix(p: string, c: char, t: string)
    requires c !in p
    ensures IndexOf(p + [c] + t, c) == |p|
  {
    var s := p + [c] + t;
    var k := IndexOf(s, c);
    assert s[|p|] == c;
    assert forall i | 0 <= i < |p| :: s[i] == p[i];
  }

  /** `parts.join(sep)`, joining with a one-character separator. */
  function Join(parts: seq<string>, sep: char): (s: string)
  {
    if |parts| == 0 then ""
    else if |parts| == 1 then parts[0]
    else parts[0] + [sep] + Join(parts[1..], sep)
  }

  /** Joining one more part in front puts it and a separator before the rest. */
  lemma {:induction false} JoinCons(p: string, parts: seq<string>, sep: char)
    requires |parts| >= 1
    ensures Join([p] + parts, sep) == p + [sep] + Join(parts, sep)
  {
    assert ([p] + parts)[1..] == parts;
  }

  /** A join starts with its first part, and is that part alone when nothing follows it. */
  lemma {:induction false} JoinHead(p: string, parts: seq<string>, sep: char)
    ensures var j := Join([p] + parts, sep);
      |j| >= |p| && j[..|p|] == p && (parts == [] ==> j == p)
  {
    if parts != [] {
      JoinCons(p, parts, sep);
    }
  }

  /** Eight parts joined: each part, with a separator between each two. */
  lemma {:induction false} JoinEight(a: string, b: string, c: string, d: string, e: string, f: string, g: string, h: string, sep: char)
    ensures Join([a, b, c, d, e, f, g, h], sep) ==
      a + [sep] + b + [sep] + c + [sep] + d + [sep] + e + [sep] + f + [sep] + g + [sep] + h
  {
    var parts := [a, b, c, d, e, f, g, h];
    assert parts[7..] == [h];
    JoinCons(g, [h], sep);
    assert parts[6..] == [g] + [h];
    JoinCons(f, parts[6..], sep);
    assert parts[5..] == [f] + parts[6..];
    JoinCons(e, parts[5..], sep);
    assert parts[4..] == [e] + parts[5..];
    JoinCons(d, parts[4..], sep);
    assert parts[3..] == [d] + parts[4..];
    JoinCons(c, parts[3..], sep);
    assert parts[2..] == [c] + parts[3..];
    JoinCons(b, parts[2..], sep);
    assert parts[1..] == [b] + parts[2..];
    JoinCons(a, parts[1..], sep);
    assert parts == [a] + parts[1..];
  }

  /** Joining one more part at the end puts a separator and it after the rest. */
  lemma {:induction false} JoinSnoc(parts: seq<string>, p: string, sep: char)
    requires |parts| >= 1
    ensures Join(parts + [p], sep) == Join(parts, sep) + [sep] + p
  {
    if |parts| == 1 {
      assert (parts + [p])[1..] == [p];
    } else {
      JoinSnoc(parts[1..], p, sep);
      assert (parts + [p])[1..] == parts[1..] + [p];
    }
  }

  /** The join of the first `k + 1` parts extends the join of the first `k` by a separator and part `k`. */
  lemma {:induction false} JoinPrefix(parts: seq<string>, k: nat, sep: char)
    requires 1 <= k < |parts|
    ensures Join(parts[..k + 1], sep) == Join(parts[..k], sep) + [sep] + parts[k]
  {
    JoinSnoc(parts[..k], parts[k], sep);
    assert parts[..k] + [parts[k]] == parts[..k + 1];
  }

  /** A join of parts free of `c` is free of `c`, when `c` is not the separator. */
  lemma {:induction false} JoinFreeOf(parts: seq<string>, sep: char, c: char)
    requires c != sep
    requires forall i | 0 <= i < |parts| :: c !in parts[i]
    ensures c !in Join(parts, sep)
  {
    if |parts| > 1 {
      JoinFreeOf(parts[1..], sep, c);
    }
  }

  /**
   * `s.split(sep)` with a one-character separator: never empty (the empty
   * string splits into one empty part), no part holds the separator, and
   * joining the parts gives `s` back.
   */
  function Split(s: string, sep: char): (parts: seq<string>)
    ensures |parts| >= 1
    ensures forall i | 0 <= i < |parts| :: sep !in parts[i]
    ensures Join(parts, sep) == s
    decreases |s|
  {
    var k := IndexOf(s, sep);
    if k < 0 then [s]
    else
      var rest := Split(s[k + 1..], sep);
      SplitStep(s, sep, k, rest);
      [s[..k]] + rest
  }

  /**
   * The part before the first separator, in front of the parts of what
   * follows it: every part is still separator-free, and they join back to `s`.
   */
  lemma {:induction false} SplitStep(s: string, sep: char, k: nat, rest: seq<string>)
    requires k < |s| && s[k] == sep && sep !in s[..k]
    requires |rest| >= 1 && Join(rest, sep) == s[k + 1..]
    requires forall i | 0 <= i < |rest| :: sep !in rest[i]
    ensures forall i | 0 <= i < |[s[..k]] + rest| :: sep !in ([s[..k]] + rest)[i]
    ensures Join([s[..k]] + rest, sep) == s
  {
    var p := s[..k];
    JoinCons(p, rest, sep);
    assert s == p + [sep] + s[k + 1..];
    forall i | 0 <= i < |[p] + rest| ensures sep !in ([p] + rest)[i] {
      if i > 0 {
        assert ([p] + rest)[i] == rest[i - 1];
      }
    }
  }

  /** Splitting a join of separator-free parts gives those parts back. */
  lemma {:induction false} SplitJoin(parts: seq<string>, sep: char)
    requires |parts| >= 1
    requires forall i | 0 <= i < |parts| :: sep !in parts[i]
    ensures Split(Join(parts, sep), sep) == parts
  {
    if |parts| > 1 {
      var tail := Join(parts[1..], sep);
      SplitCons(parts[0], sep, tail);
      SplitJoin(parts[1..], sep);
      assert parts == [parts[0]] + parts[1..];
    }
  }

  /**
   * Three quoted fields written with the closing quote, separator and opening
   * quote run together are the three quoted fields with a separator between each.
   */
  lemma QuotedThree<T>(q: seq<T>, sep: T, x: seq<T>, y: seq<T>, z: seq<T>)
    ensures q + x + (q + [sep] + q) + y + (q + [sep] + q) + z + q ==
      (q + x + q) + [sep] + (q + y + q) + [sep] + (q + z + q)
  {
  }

  /** Three separator-free parts with a separator between each split back into those three parts. */
  lemma {:induction false} SplitThree(a: string, b: string, c: string, sep: char)
    requires sep !in a && sep !in b && sep !in c
    ensures Split(a + [sep] + b + [sep] + c, sep) == [a, b, c]
  {
    assert a + [sep] + b + [sep] + c == a + [sep] + (b + [sep] + c);
    SplitCons(a, sep, b + [sep] + c);
    SplitPair(b + [sep] + c, b, c, sep);
  }

  /** Splitting a separator-free first part, a separator and the rest splits off that part. */
  lemma SplitCons(p: string, sep: char, t: string)
    requires sep !in p
    ensures Split(p + [sep] + t, sep) == [p] + Split(t, sep)
  {
    IndexOfAfterPrefix(p, sep, t);
    var s := p + [sep] + t;
    assert s[..|p|] == p;
    assert s[|p| + 1..] == t;
  }

  /** No string of `lines` holds `c`. */
  predicate NoneHolds(lines: seq<string>, c: char) {
    forall k | 0 <= k < |lines| :: c !in lines[k]
  }

  /**
   * Text made of a header line and further lines, none holding a newline,
   * splits back into exactly those lines.
   */
  lemma {:induction false} SplitLines(header: string, rows: seq<string>)
    requires '\n' !in header
    requires NoneHolds(rows, '\n')
    ensures Split(Join([header] + rows, '\n'), '\n') == [header] + rows
    ensures var lines := Split(Join([header] + rows, '\n'), '\n');
      && |lines| == |rows| + 1 && lines[0] == header
      && forall k | 0 <= k < |rows| :: lines[k + 1] == rows[k]
  {
    var all := [header] + rows;
    forall k | 0 <= k < |all| ensures '\n' !in all[k] {
      if k > 0 { assert all[k] == rows[k - 1]; }
    }
    SplitJoin(all, '\n');
    forall k | 0 <= k < |rows| ensures all[k + 1] == rows[k] { }
  }

  /** A line made of two separator-free fields splits into exactly those two. */
  lemma {:induction false} SplitPair(line: string, a: string, b: string, sep: char)
    requires sep !in a && sep !in b && line == a + [sep] + b
    ensures Split(line, sep) == [a, b]
  {
    JoinCons(a, [b], sep);
    SplitJoin([a, b], sep);
  }

  /** Index normalisation of `slice`: negative counts from the end; both clamp to the length. */
  function ClampIndex(i: int, len: nat): (j: nat)
    ensures j <= len
    ensures 0 <= i <= len ==> j == i
    ensures -(len as int) <= i < 0 ==> j == len + i
    ensures i > len ==> j == len
    ensures i < -(len as int) ==> j == 0
  {
    if i < 0 then (if len + i < 0 then 0 else len + i)
    else if i > len then len
    else i
  }

  /**
   * `s.slice(start, end)`: the characters from `start` up to `end`, where a
   * negative `end` counts back from the end of the string.
   */
  function Slice(s: string, start: int, end: int): (r: string)
    ensures |r| <= |s|
    ensures 0 <= start <= end <= |s| ==> r == s[start..end]
    ensures 0 <= start && -(|s| as int) <= end < 0 && start <= |s| + end ==> r == s[start..|s| + end]
    ensures start >= |s| ==> r == ""
    ensures ClampIndex(start, |s|) >= ClampIndex(end, |s|) ==> r == ""
  {
    var from := ClampIndex(start, |s|);
    var to := ClampIndex(end, |s|);
    if from < to then s[from..to] else ""
  }

  /** `s.replaceAll(c, '')`: every `c` dropped, every other character kept, in order. */
  function RemoveAll(s: string, c: char): (r: string)
    ensures c !in r
    ensures |r| <= |s|
    ensures c !in s ==> r == s
  {
    if |s| == 0 then ""
    else
      var rest := RemoveAll(s[1..], c);
      assert s == [s[0]] + s[1..];
      if s[0] == c then rest else [s[0]] + rest
  }

  /** Every character other than `c` survives the removal, and nothing else appears. */
  lemma {:induction false} RemoveAllKeeps(s: string, c: char)
    ensures forall x | x != c :: x in RemoveAll(s, c) <==> x in s
  {
    if |s| > 0 {
      RemoveAllKeeps(s[1..], c);
      assert s == [s[0]] + s[1..];
    }
  }

  /** Removing every `c` from a concatenation removes it from each side. */
  lemma {:induction false} RemoveAllConcat(x: string, y: string, c: char)
    ensures RemoveAll(x + y, c) == RemoveAll(x, c) + RemoveAll(y, c)
  {
    if |x| > 0 {
      assert (x + y)[1..] == x[1..] + y;
      RemoveAllConcat(x[1..], y, c);
    } else {
      assert x + y == y;
    }
  }

  /** Past a prefix free of `c`, removing every `c` drops the separator and works on the rest. */
  lemma {:induction false} RemoveAllAfterPrefix(p: string, c: char, t: string)
    requires c !in p
    ensures RemoveAll(p + [c] + t, c) == p + RemoveAll(t, c)
  {
    RemoveAllConcat(p, [c] + t, c);
    assert p + [c] + t == p + ([c] + t);
    assert ([c] + t)[1..] == t;
  }

  /** `s.replace(c, '')`: only the first `c` is dropped. */
  function RemoveFirst(s: string, c: char): (r: string)
    ensures c in s ==> |r| == |s| - 1
    ensures c !in s ==> r == s
  {
    var k := IndexOf(s, c);
    if k < 0 then s else s[..k] + s[k + 1..]
  }

  /** Before the first `c`, `replace(c, '')` drops just that one. */
  lemma {:induction false} RemoveFirstAfterPrefix(p: string, c: char, t: string)
    requires c !in p
    ensures RemoveFirst(p + [c] + t, c) == p + t
  {
    IndexOfAfterPrefix(p, c, t);
    var s := p + [c] + t;
    assert s[..|p|] == p;
    assert s[|p| + 1..] == t;
  }

  predicate IsDigit(ch: char) {
    '0' <= ch <= '9'
  }

  function DigitChar(d: nat): (ch: char)
    requires d < 10
    ensures IsDigit(ch) && (ch as int) - ('0' as int) == d
  {
    (('0' as int) + d) as char
  }

  /**
   * The decimal rendering of a natural number in a template literal: the
   * digits of `n / 10`, then the last digit.
   */
  function NatToDecimal(n: nat): (s: string)
    ensures |s| >= 1
  {
    if n < 10 then [DigitChar(n)] else NatToDecimal(n / 10) + [DigitChar(n % 10)]
  }

  /** The rendering has digits only, and a leading zero only for zero itself (no padding). */
  lemma {:induction false} NatToDecimalDigits(n: nat)
    ensures var s := NatToDecimal(n);
      && (forall i | 0 <= i < |s| :: IsDigit(s[i]))
      && (s[0] == '0' ==> n == 0)
  {
    if n >= 10 {
      NatToDecimalDigits(n / 10);
    }
  }

  /** The value of a string of decimal digits. */
  function DecimalValue(s: string): int {
    if |s| == 0 then 0
    else DecimalValue(s[..|s| - 1]) * 10 + ((s[|s| - 1] as int) - ('0' as int))
  }

  /** Reading back the rendering of `n` gives `n`. */
  lemma {:induction false} DecimalRoundTrip(n: nat)
    ensures DecimalValue(NatToDecimal(n)) == n
  {
    if n >= 10 {
      var s := NatToDecimal(n);
      assert s[..|s| - 1] == NatToDecimal(n / 10);
      DecimalRoundTrip(n / 10);
    }
  }

  /** `${n}` for an integer `n`: a minus sign before the digits of a negative number. */
  function IntToDecimal(n: int): (s: string)
    ensures |s| >= 1
  {
    if n < 0 then "-" + NatToDecimal(-n) else NatToDecimal(n)
  }

  /** The digits after the minus sign of a negative number read back as its magnitude. */
  lemma {:induction false} IntToDecimalNegative(n: int)
    requires n < 0
    ensures var s := IntToDecimal(n);
      s[0] == '-' && DecimalValue(s[1..]) == -n
  {
    var d := NatToDecimal(-n);
    assert ("-" + d)[1..] == d;
    DecimalRoundTrip(-n);
  }

  /** The rendering is digits, after a leading minus sign exactly when `n` is negative. */
  lemma {:induction false} IntToDecimalChars(n: int)
    ensures var s := IntToDecimal(n);
      && (forall i | 0 <= i < |s| :: IsDigit(s[i]) || (i == 0 && s[i] == '-'))
      && (s[0] == '-' <==> n < 0)
  {
    if n < 0 {
      NatToDecimalDigits(-n);
      var d := NatToDecimal(-n);
      assert forall i | 1 <= i < |"-" + d| :: ("-" + d)[i] == d[i - 1];
    } else {
      NatToDecimalDigits(n);
    }
  }
}
