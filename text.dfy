/** The string operations of Python's `str` that the bot relies on. */
module Text {

  /** `str.isspace()` for one character. */
  predicate IsSpace(c: char) {
    var n := c as int;
    || n == 0x20 || 0x09 <= n <= 0x0D || 0x1C <= n <= 0x1F
    || n == 0x85 || n == 0xA0 || n == 0x1680 || 0x2000 <= n <= 0x200A
    || n == 0x2028 || n == 0x2029 || n == 0x202F || n == 0x205F || n == 0x3000
  }

  predicate NoSpace(s: string) {
    forall i :: 0 <= i < |s| ==> !IsSpace(s[i])
  }

  predicate AllSpace(s: string) {
    forall i :: 0 <= i < |s| ==> IsSpace(s[i])
  }

  /** What `str.split()` can yield: a non-empty run without whitespace. */
  predicate IsWord(s: string) {
    |s| > 0 && NoSpace(s)
  }

  /** `c * n` for a one-character string `c`. */
  function Repeat(c: char, n: nat): (r: string)
    ensures |r| == n
    ensures forall i :: 0 <= i < n ==> r[i] == c
  {
    seq(n, _ => c)
  }

  function Spaces(n: nat): (r: string)
    ensures |r| == n && AllSpace(r)
  {
    Repeat(' ', n)
  }

  /** `sep.join(parts)`. */
  function Join(parts: seq<string>, sep: string): string
  {
    if |parts| == 0 then ""
    else if |parts| == 1 then parts[0]
    else parts[0] + sep + Join(parts[1..], sep)
  }

  lemma {:induction false} JoinSnoc(parts: seq<string>, x: string, sep: string)
    requires |parts| > 0
    ensures Join(parts + [x], sep) == Join(parts, sep) + sep + x
  {
    if |parts| > 1 {
      assert (parts + [x])[1..] == parts[1..] + [x];
      JoinSnoc(parts[1..], x, sep);
    }
  }

  /** A character that is in no part and not in the separator is not in the joined string. */
  lemma {:induction false} JoinExcludes(parts: seq<string>, sep: string, c: char)
    requires c !in sep
    requires forall k :: 0 <= k < |parts| ==> c !in parts[k]
    ensures c !in Join(parts, sep)
  {
    if |parts| > 1 {
      JoinExcludes(parts[1..], sep, c);
    }
  }

  /** Python's clamping slice `s[lo:hi]`. */
  function Slice<T>(s: seq<T>, lo: nat, hi: nat): (r: seq<T>)
    requires lo <= hi
    ensures |r| == if lo >= |s| then 0 else if hi >= |s| then |s| - lo else hi - lo
    ensures forall i :: 0 <= i < |r| ==> r[i] == s[lo + i]
  {
    if lo >= |s| then [] else if hi >= |s| then s[lo..] else s[lo..hi]
  }

  /** The length of the leading run of non-whitespace characters. */
  function WordLength(s: string): (n: nat)
    ensures n <= |s|
    ensures forall i :: 0 <= i < n ==> !IsSpace(s[i])
    ensures n < |s| ==> IsSpace(s[n])
  {
    if s == [] || IsSpace(s[0]) then 0 else 1 + WordLength(s[1..])
  }

  /** `str.split()` with no argument: the maximal runs of non-whitespace, in order. */
  function Split(s: string): (r: seq<string>)
    ensures forall i :: 0 <= i < |r| ==> IsWord(r[i])
    decreases |s|
  {
    if s == [] then []
    else if IsSpace(s[0]) then Split(s[1..])
    else
      var n := WordLength(s);
      [s[..n]] + Split(s[n..])
  }

  lemma {:induction false} SplitSkipsSpace(g: string, s: string)
    requires AllSpace(g)
    ensures Split(g + s) == Split(s)
    decreases |g|
  {
    if g != [] {
      assert (g + s)[0] == g[0] && IsSpace(g[0]);
      assert (g + s)[1..] == g[1..] + s;
      SplitSkipsSpace(g[1..], s);
    } else {
      assert g + s == s;
    }
  }

  lemma {:induction false} WordLengthOfWord(w: string, s: string)
    requires NoSpace(w)
    requires s == [] || IsSpace(s[0])
    ensures WordLength(w + s) == |w|
    decreases |w|
  {
    if w != [] {
      assert (w + s)[1..] == w[1..] + s;
      WordLengthOfWord(w[1..], s);
    } else {
      assert w + s == s;
    }
  }

  /** A word followed by a run of whitespace is one token of `str.split()`. */
  lemma SplitWord(w: string, g: string, s: string)
    requires IsWord(w) && AllSpace(g) && |g| > 0
    ensures Split(w + g + s) == [w] + Split(s)
  {
    var t := w + g + s;
    WordLengthOfWord(w, g + s);
    assert t == w + (g + s);
    assert t[..|w|] == w;
    assert t[|w|..] == g + s;
    SplitSkipsSpace(g, s);
  }

  lemma SplitSingleWord(w: string)
    requires IsWord(w)
    ensures Split(w) == [w]
  {
    WordLengthOfWord(w, "");
    assert w + "" == w;
    assert w[|w|..] == [];
  }

  /** Words separated by arbitrary runs of whitespace. */
  function Interleave(ws: seq<string>, gaps: seq<string>): string
    requires |ws| > 0 && |gaps| == |ws| - 1
  {
    if |ws| == 1 then ws[0] else ws[0] + gaps[0] + Interleave(ws[1..], gaps[1..])
  }

  /**
   * `str.split()` recovers the words whatever whitespace surrounds and
   * separates them: runs of whitespace collapse.
   */
  lemma {:induction false} SplitInterleave(lead: string, ws: seq<string>, gaps: seq<string>, trail: string)
    requires |ws| > 0 && |gaps| == |ws| - 1
    requires forall k :: 0 <= k < |ws| ==> IsWord(ws[k])
    requires forall k :: 0 <= k < |gaps| ==> AllSpace(gaps[k]) && |gaps[k]| > 0
    requires AllSpace(lead) && AllSpace(trail)
    ensures Split(lead + Interleave(ws, gaps) + trail) == ws
  {
    SplitSkipsSpace(lead, Interleave(ws, gaps) + trail);
    assert lead + Interleave(ws, gaps) + trail == lead + (Interleave(ws, gaps) + trail);
    SplitRest(ws, gaps, trail);
  }

  lemma {:induction false} SplitRest(ws: seq<string>, gaps: seq<string>, trail: string)
    requires |ws| > 0 && |gaps| == |ws| - 1
    requires forall k :: 0 <= k < |ws| ==> IsWord(ws[k])
    requires forall k :: 0 <= k < |gaps| ==> AllSpace(gaps[k]) && |gaps[k]| > 0
    requires AllSpace(trail)
    ensures Split(Interleave(ws, gaps) + trail) == ws
  {
    if |ws| == 1 {
      if trail == [] {
        assert ws[0] + trail == ws[0];
        SplitSingleWord(ws[0]);
      } else {
        SplitWord(ws[0], trail, []);
        assert ws[0] + trail + [] == ws[0] + trail;
      }
    } else {
      var rest := Interleave(ws[1..], gaps[1..]) + trail;
      assert Interleave(ws, gaps) + trail == ws[0] + gaps[0] + rest;
      SplitWord(ws[0], gaps[0], rest);
      SplitRest(ws[1..], gaps[1..], trail);
      assert ws == [ws[0]] + ws[1..];
    }
  }

  /** `" ".join` of words, split again, gives the words back. */
  lemma {:induction false} SplitJoin(ws: seq<string>)
    requires forall k :: 0 <= k < |ws| ==> IsWord(ws[k])
    ensures Split(Join(ws, " ")) == ws
  {
    if |ws| == 1 {
      SplitSingleWord(ws[0]);
    } else if |ws| > 1 {
      var rest := Join(ws[1..], " ");
      assert AllSpace(" ");
      SplitWord(ws[0], " ", rest);
      SplitJoin(ws[1..]);
      assert ws == [ws[0]] + ws[1..];
    }
  }

  /** `s.index(c)`: where `c` first occurs. */
  function IndexOf(s: string, c: char): (i: nat)
    requires c in s
    ensures i < |s| && s[i] == c && c !in s[..i]
  {
    if s[0] == c then 0
    else
      var i := 1 + IndexOf(s[1..], c);
      assert s[..i] == [s[0]] + s[1..][..i - 1];
      i
  }

  /** `s.split(c)` for one character `c`: the pieces between occurrences of `c`. */
  function SplitOn(s: string, c: char): (r: seq<string>)
    ensures |r| > 0
    decreases |s|
  {
    if c !in s then [s]
    else
      var i := IndexOf(s, c);
      [s[..i]] + SplitOn(s[i + 1..], c)
  }

  /** In `a + [c] + b`, with no `c` in `a`, the first `c` is the one after `a`. */
  lemma {:induction false} IndexAfter(a: string, c: char, b: string)
    requires c !in a
    ensures c in a + [c] + b && IndexOf(a + [c] + b, c) == |a|
  {
    var s := a + [c] + b;
    assert s[|a|] == c;
    if a != [] {
      assert s[1..] == a[1..] + [c] + b;
      IndexAfter(a[1..], c, b);
    }
  }

  /** Splitting on the separator undoes `Join` when no part contains it. */
  lemma {:induction false} SplitOnJoin(lines: seq<string>, c: char)
    requires |lines| > 0
    requires forall k :: 0 <= k < |lines| ==> c !in lines[k]
    ensures SplitOn(Join(lines, [c]), c) == lines
  {
    if |lines| > 1 {
      var rest := Join(lines[1..], [c]);
      var s := lines[0] + [c] + rest;
      assert Join(lines, [c]) == s;
      IndexAfter(lines[0], c, rest);
      var n := |lines[0]|;
      assert s[..n] == lines[0];
      assert s[n + 1..] == rest;
      assert SplitOn(s, c) == [lines[0]] + SplitOn(rest, c);
      SplitOnJoin(lines[1..], c);
      assert lines == [lines[0]] + lines[1..];
    }
  }

  // Decimal digits

  predicate IsDigit(c: char) {
    '0' <= c <= '9'
  }

  predicate AllDigits(s: string) {
    forall i :: 0 <= i < |s| ==> IsDigit(s[i])
  }

  function DigitChar(d: nat): (c: char)
    requires d < 10
    ensures IsDigit(c) && DigitValue(c) == d
  {
    (('0' as int) + d) as char
  }

  function DigitValue(c: char): nat
    requires IsDigit(c)
  {
    (c as int) - ('0' as int)
  }

  /** The number a string of decimal digits denotes. */
  function ValueOf(s: string): nat
    requires AllDigits(s)
  {
    if s == [] then 0 else ValueOf(s[..|s| - 1]) * 10 + DigitValue(s[|s| - 1])
  }

  function Pow10(n: nat): (p: nat)
    ensures p >= 1
  {
    if n == 0 then 1 else 10 * Pow10(n - 1)
  }

  /** `str(n)`: decimal digits without leading zeros. */
  function Decimal(n: nat): (r: string)
    ensures |r| > 0 && AllDigits(r)
    ensures forall c :: c in r ==> IsDigit(c)
    ensures r[0] == '0' ==> n == 0
    ensures ValueOf(r) == n
  {
    if n < 10 then [DigitChar(n)]
    else
      var r := Decimal(n / 10) + [DigitChar(n % 10)];
      assert r[..|r| - 1] == Decimal(n / 10);
      r
  }

  /** The last `width` decimal digits of `n`, zero-padded: `%0{width}d` for `n < 10^width`. */
  function Padded(n: nat, width: nat): (r: string)
    ensures |r| == width && AllDigits(r)
    ensures forall c :: c in r ==> IsDigit(c)
    ensures n < Pow10(width) ==> ValueOf(r) == n
  {
    if width == 0 then ""
    else
      var r := Padded(n / 10, width - 1) + [DigitChar(n % 10)];
      assert r[..|r| - 1] == Padded(n / 10, width - 1);
      r
  }
}
