/** The materialized comment path: how `Comment.save` turns the tweet's
    counter into a path segment, and what `level` measures.

    A segment is the counter in decimal, zero-padded to width 6
    (`'{:0{}d}'.format(counter, 6)`); a reply appends `.` and its segment to
    its parent's path. Paths are compared as Python compares strings,
    character by character. */
module Paths {

  /** `Comment._N`: the zero-padded width of one segment. */
  const Width: nat := 6
  const Separator: char := '.'

  function Pow10(k: nat): (r: nat)
    ensures r >= 1
  {
    if k == 0 then 1 else 10 * Pow10(k - 1)
  }

  predicate IsDigit(c: char) { '0' <= c <= '9' }

  function DigitChar(d: nat): (c: char)
    requires d < 10
    ensures IsDigit(c)
  {
    ('0' as int + d) as char
  }

  function DigitValue(c: char): nat
    requires IsDigit(c)
  {
    c as int - '0' as int
  }

  /** Decimal digits of `n` without leading zeros (`str(n)`). */
  function Digits(n: nat): (s: string)
    ensures |s| >= 1
    ensures forall i :: 0 <= i < |s| ==> IsDigit(s[i])
  {
    if n < 10 then [DigitChar(n)] else Digits(n / 10) + [DigitChar(n % 10)]
  }

  function Zeros(k: nat): (s: string)
    ensures |s| == k && forall i :: 0 <= i < k ==> s[i] == '0'
  {
    if k == 0 then [] else Zeros(k - 1) + ['0']
  }

  /** `'{:0{w}d}'.format(n)`: left-padded with zeros to width `w`; a number
      with more than `w` digits is written in full. */
  function Pad(n: nat, w: nat): string
  {
    var d := Digits(n);
    if |d| >= w then d else Zeros(w - |d|) + d
  }

  /** The path segment for counter value `n`. */
  function Segment(n: nat): string
  {
    Pad(n, Width)
  }

  /** The path `Comment.save` writes: the parent's path and a separator when
      there is a parent, then the segment of the tweet's new counter. */
  function ChildPath(parentPath: string, hasParent: bool, counter: nat): string
  {
    (if hasParent then parentPath + [Separator] else "") + Segment(counter)
  }

  /** `Comment.level`: the length of the path in characters. */
  function Level(path: string): nat
  {
    |path|
  }

  // ---------------------------------------------------------------------------
  // Reading a segment back

  predicate AllDigits(s: string) { forall i :: 0 <= i < |s| ==> IsDigit(s[i]) }

  /** The number a string of decimal digits denotes (`int(s)`). */
  function Parse(s: string): nat
    requires AllDigits(s)
  {
    if s == [] then 0 else 10 * Parse(s[..|s| - 1]) + DigitValue(s[|s| - 1])
  }

  lemma {:induction false} ParseDigits(n: nat)
    ensures Parse(Digits(n)) == n
  {
    if n >= 10 {
      ParseDigits(n / 10);
      var d := Digits(n);
      assert d[..|d| - 1] == Digits(n / 10);
    }
  }

  lemma {:induction false} ParseLeadingZeros(k: nat, t: string)
    requires AllDigits(t)
    ensures AllDigits(Zeros(k) + t)
    ensures Parse(Zeros(k) + t) == Parse(t)
  {
    var s := Zeros(k) + t;
    if t == [] {
      assert s == Zeros(k);
      ParseZeros(k);
    } else {
      var t' := t[..|t| - 1];
      ParseLeadingZeros(k, t');
      assert s[..|s| - 1] == Zeros(k) + t';
    }
  }

  lemma {:induction false} ParseZeros(k: nat)
    ensures Parse(Zeros(k)) == 0
  {
    if k > 0 {
      ParseZeros(k - 1);
      assert Zeros(k)[..k - 1] == Zeros(k - 1);
    }
  }

  /** A segment is all digits and reads back as the counter it was made from:
      formatting loses nothing, whatever the counter's size. */
  lemma SegmentRoundTrip(n: nat)
    ensures AllDigits(Segment(n))
    ensures Parse(Segment(n)) == n
  {
    var d := Digits(n);
    ParseDigits(n);
    if |d| < Width {
      ParseLeadingZeros(Width - |d|, d);
    }
  }

  /** Two different counter values never give the same segment. */
  lemma SegmentInjective(a: nat, b: nat)
    requires a != b
    ensures Segment(a) != Segment(b)
  {
    SegmentRoundTrip(a);
    SegmentRoundTrip(b);
  }

  // ---------------------------------------------------------------------------
  // Width and order

  lemma {:induction false} DigitsLength(n: nat, k: nat)
    requires n < Pow10(k)
    ensures |Digits(n)| <= k || (n < 10 && k == 0)
  {
    if n >= 10 {
      assert k >= 1;
      DigitsLength(n / 10, k - 1);
    }
  }

  /** Counters below 10^6 give segments of exactly six characters. */
  lemma SegmentWidth(n: nat)
    requires n < Pow10(Width)
    ensures |Segment(n)| == Width
  {
    DigitsLength(n, Width);
  }

  /** Exactly `w` digits of `n`, most significant first. */
  function Fixed(n: nat, w: nat): (s: string)
    ensures |s| == w
  {
    if w == 0 then [] else Fixed(n / 10, w - 1) + [DigitChar(n % 10)]
  }

  lemma {:induction false} FixedZero(w: nat)
    ensures Fixed(0, w) == Zeros(w)
  {
    if w > 0 {
      FixedZero(w - 1);
    }
  }

  lemma {:induction false} PadIsFixed(n: nat, w: nat)
    requires 1 <= w && n < Pow10(w)
    ensures Pad(n, w) == Fixed(n, w)
  {
    if n < 10 {
      FixedZero(w - 1);
      assert Digits(n) == [DigitChar(n)];
      assert Zeros(w - 1) + [DigitChar(n)] == Zeros(w - |Digits(n)|) + Digits(n);
    } else {
      DigitsLength(n / 10, w - 1);
      PadIsFixed(n / 10, w - 1);
      var d := Digits(n / 10);
      assert Digits(n) == d + [DigitChar(n % 10)];
      if |d| >= w - 1 {
        assert |d| == w - 1;
        assert Pad(n / 10, w - 1) == d;
        assert Zeros(0) + Digits(n) == Digits(n);
      } else {
        assert Pad(n / 10, w - 1) == Zeros(w - 1 - |d|) + d;
      }
    }
  }

  /** Python's string order: the first differing character decides, and a
      proper prefix comes first. */
  predicate LexLess(s: string, t: string)
  {
    if s == [] then t != []
    else t != [] && (s[0] < t[0] || (s[0] == t[0] && LexLess(s[1..], t[1..])))
  }

  lemma {:induction false} LexLessSnoc(s: string, t: string, c: char, d: char)
    requires |s| == |t|
    requires LexLess(s, t) || (s == t && c < d)
    ensures LexLess(s + [c], t + [d])
  {
    if s != [] {
      assert (s + [c])[1..] == s[1..] + [c];
      assert (t + [d])[1..] == t[1..] + [d];
      if s[0] == t[0] && !LexLess(s[1..], t[1..]) {
        assert s[1..] == t[1..];
      }
      if s[0] == t[0] {
        LexLessSnoc(s[1..], t[1..], c, d);
      }
    }
  }

  lemma {:induction false} FixedOrder(a: nat, b: nat, w: nat)
    requires a < b < Pow10(w)
    ensures LexLess(Fixed(a, w), Fixed(b, w))
  {
    assert w > 0;
    if a / 10 < b / 10 {
      FixedOrder(a / 10, b / 10, w - 1);
    } else {
      assert a / 10 == b / 10;
    }
    LexLessSnoc(Fixed(a / 10, w - 1), Fixed(b / 10, w - 1), DigitChar(a % 10), DigitChar(b % 10));
  }

  /** Zero padding makes string order agree with numeric order as long as the
      counter fits in six digits ("000010" sorts after "000002"). */
  lemma SegmentOrder(a: nat, b: nat)
    requires a < b < Pow10(Width)
    ensures LexLess(Segment(a), Segment(b))
  {
    PadIsFixed(a, Width);
    PadIsFixed(b, Width);
    FixedOrder(a, b, Width);
  }

  lemma {:induction false} LexLessEqualLengthExtend(x: string, y: string, u: string, v: string)
    requires |x| == |y| && LexLess(x, y)
    ensures LexLess(x + u, y + v)
  {
    assert x != [] && y != [];
    assert (x + u)[1..] == x[1..] + u;
    assert (y + v)[1..] == y[1..] + v;
    if x[0] == y[0] {
      LexLessEqualLengthExtend(x[1..], y[1..], u, v);
    }
  }

  lemma {:induction false} LexLessCommonPrefix(p: string, x: string, y: string)
    requires LexLess(x, y)
    ensures LexLess(p + x, p + y)
  {
    if p != [] {
      assert (p + x)[1..] == p[1..] + x;
      assert (p + y)[1..] == p[1..] + y;
      assert (p + x)[0] == p[0] == (p + y)[0];
      LexLessCommonPrefix(p[1..], x, y);
    } else {
      assert p + x == x && p + y == y;
    }
  }

  lemma {:induction false} LexLessProperPrefix(p: string, q: string)
    requires q != []
    ensures LexLess(p, p + q)
  {
    if p != [] {
      assert (p + q)[1..] == p[1..] + q;
      LexLessProperPrefix(p[1..], q);
    }
  }

  // ---------------------------------------------------------------------------
  // Properties of the comment tree

  /** A reply's path has its parent's path and the separator as a proper
      prefix, and sorts after it. */
  lemma ReplyExtendsParent(parentPath: string, counter: nat)
    ensures |ChildPath(parentPath, true, counter)| > |parentPath| + 1
    ensures ChildPath(parentPath, true, counter)[..|parentPath| + 1] == parentPath + [Separator]
    ensures LexLess(parentPath, ChildPath(parentPath, true, counter))
  {
    var c := ChildPath(parentPath, true, counter);
    assert c == parentPath + ([Separator] + Segment(counter));
    LexLessProperPrefix(parentPath, [Separator] + Segment(counter));
  }

  /** Depth-first order: when two children of the same parent were given
      counters a < b (both below 10^6), every path in the subtree of the first
      sorts before every path in the subtree of the second. */
  lemma EarlierSiblingSubtreeFirst(parentPath: string, hasParent: bool, a: nat, b: nat, u: string, v: string)
    requires a < b < Pow10(Width)
    ensures LexLess(ChildPath(parentPath, hasParent, a) + u, ChildPath(parentPath, hasParent, b) + v)
  {
    var p := if hasParent then parentPath + [Separator] else "";
    SegmentOrder(a, b);
    SegmentWidth(a);
    SegmentWidth(b);
    LexLessEqualLengthExtend(Segment(a), Segment(b), u, v);
    LexLessCommonPrefix(p, Segment(a) + u, Segment(b) + v);
    assert ChildPath(parentPath, hasParent, a) + u == p + (Segment(a) + u);
    assert ChildPath(parentPath, hasParent, b) + v == p + (Segment(b) + v);
  }

  /** `level` grows by seven characters per reply level: six for the segment
      and one for the separator, while counters fit in six digits. A top-level
      comment has level 6. */
  lemma LevelOfChild(parentPath: string, hasParent: bool, counter: nat)
    requires counter < Pow10(Width)
    ensures Level(ChildPath(parentPath, hasParent, counter)) ==
      if hasParent then Level(parentPath) + Width + 1 else Width
  {
    SegmentWidth(counter);
  }

  /** The last segment of a path: the characters after its last separator. */
  function LastSegment(path: string): string
  {
    if path == [] then []
    else if path[|path| - 1] == Separator then []
    else LastSegment(path[..|path| - 1]) + [path[|path| - 1]]
  }

  lemma {:induction false} LastSegmentAfterSeparator(p: string, seg: string)
    requires forall i :: 0 <= i < |seg| ==> seg[i] != Separator
    ensures LastSegment(p + [Separator] + seg) == seg
    ensures LastSegment(seg) == seg
  {
    if seg != [] {
      var init := seg[..|seg| - 1];
      LastSegmentAfterSeparator(p, init);
      assert (p + [Separator] + seg)[..|p + [Separator] + seg| - 1] == p + [Separator] + init;
      assert seg == init + [seg[|seg| - 1]];
    } else {
      assert p + [Separator] + seg == p + [Separator];
    }
  }

  /** The counter a path was made with can be read back from its last
      segment, so two saves that used different counter values (as every two
      saves under one tweet do) end in different segments. */
  lemma LastSegmentIsCounter(parentPath: string, hasParent: bool, counter: nat)
    ensures LastSegment(ChildPath(parentPath, hasParent, counter)) == Segment(counter)
    ensures AllDigits(Segment(counter)) && Parse(Segment(counter)) == counter
  {
    SegmentRoundTrip(counter);
    LastSegmentAfterSeparator(parentPath, Segment(counter));
    if hasParent {
      assert ChildPath(parentPath, hasParent, counter) == parentPath + [Separator] + Segment(counter);
    } else {
      assert ChildPath(parentPath, hasParent, counter) == Segment(counter);
    }
  }

  /** Two saves under one tweet draw different counter values, so their
      paths never end in the same segment, whatever their parents. */
  lemma DistinctCountersDistinctLastSegments(p1: string, h1: bool, c1: nat, p2: string, h2: bool, c2: nat)
    requires c1 != c2
    ensures LastSegment(ChildPath(p1, h1, c1)) != LastSegment(ChildPath(p2, h2, c2))
  {
    LastSegmentIsCounter(p1, h1, c1);
    LastSegmentIsCounter(p2, h2, c2);
    SegmentInjective(c1, c2);
  }

  /** The six-digit bound on `SegmentOrder` is needed: once the counter
      reaches 10^6 the segment grows a seventh digit and sorts before the
      six-digit ones. */
  lemma OrderBreaksAtSevenDigits()
    ensures Segment(999999) == "999999" && Segment(1000000) == "1000000"
    ensures LexLess(Segment(1000000), Segment(999999))
  {
    assert Digits(9) == "9";
    assert Digits(99) == "99";
    assert Digits(999) == "999";
    assert Digits(9999) == "9999";
    assert Digits(99999) == "99999";
    assert Digits(999999) == "999999";
    assert Digits(1) == "1";
    assert Digits(10) == "10";
    assert Digits(100) == "100";
    assert Digits(1000) == "1000";
    assert Digits(10000) == "10000";
    assert Digits(100000) == "100000";
    assert Digits(1000000) == "1000000";
  }
}
