/**
 * The few pieces of Python's `str` and `int` that the device-count flag code relies on:
 * whitespace and digit classes, `str.split()` with no separator, `' '.join(...)`,
 * `int(digits)` and `f'{n}'`. Only ASCII characters are classified.
 */
module Text {

  /** The ASCII characters Python counts as whitespace (`str.isspace`, `\s`, `str.split()`):
      tab, line feed, vertical tab, form feed, carriage return, the four separators
      0x1C-0x1F, and space. */
  predicate IsSpace(c: char)
  {
    var k := c as int;
    k == 32 || 9 <= k <= 13 || 28 <= k <= 31
  }

  predicate IsDigit(c: char)
  {
    '0' <= c <= '9'
  }

  predicate AllDigits(s: string)
  {
    forall k :: 0 <= k < |s| ==> IsDigit(s[k])
  }

  /** A token of `str.split()`: non-empty and free of whitespace. */
  predicate IsWord(w: string)
  {
    |w| > 0 && forall k :: 0 <= k < |w| ==> !IsSpace(w[k])
  }

  predicate AllWords(ws: seq<string>)
  {
    forall k :: 0 <= k < |ws| ==> IsWord(ws[k])
  }

  lemma WordConcat(a: string, b: string)
    requires IsWord(a) && IsWord(b)
    ensures IsWord(a + b)
  {
    assert forall k :: |a| <= k < |a + b| ==> (a + b)[k] == b[k - |a|];
  }

  lemma WordsCons(w: string, ws: seq<string>)
    requires IsWord(w) && AllWords(ws)
    ensures AllWords([w] + ws)
  {
    assert forall k :: 1 <= k < |[w] + ws| ==> ([w] + ws)[k] == ws[k - 1];
  }

  function DigitValue(c: char): nat
    requires IsDigit(c)
  {
    c as int - '0' as int
  }

  function DigitChar(d: nat): (c: char)
    requires d < 10
    ensures IsDigit(c) && DigitValue(c) == d
  {
    ('0' as int + d) as char
  }

  function Pow10(k: nat): (p: nat)
    ensures p >= 1
  {
    if k == 0 then 1 else 10 * Pow10(k - 1)
  }

  /** `int(ds)` for a string of decimal digits; leading zeros are accepted. */
  function DecimalValue(ds: string): (v: nat)
    requires AllDigits(ds)
    ensures v < Pow10(|ds|)
    decreases |ds|
  {
    if ds == [] then 0
    else
      var high := DecimalValue(ds[..|ds| - 1]);
      assert high + 1 <= Pow10(|ds| - 1);
      assert high * 10 + 10 <= Pow10(|ds|);
      high * 10 + DigitValue(ds[|ds| - 1])
  }

  /** Leading zeros do not change the value `int` reads. */
  lemma {:induction false} DecimalValueLeadingZero(ds: string)
    requires AllDigits(ds) && ds != [] && ds[0] == '0'
    ensures DecimalValue(ds) == DecimalValue(ds[1..])
    decreases |ds|
  {
    if |ds| > 1 {
      var init := ds[..|ds| - 1];
      DecimalValueLeadingZero(init);
      assert init[1..] == ds[1..][..|ds[1..]| - 1];
    }
  }

  /** `str(n)` for a non-negative integer: the shortest decimal numeral, which reads back as `n`. */
  function Decimal(n: nat): (r: string)
    ensures |r| > 0 && AllDigits(r)
    ensures DecimalValue(r) == n
    ensures r[0] == '0' <==> n == 0
    ensures n == 0 ==> r == "0"
    decreases n
  {
    if n < 10 then [DigitChar(n)]
    else
      var r := Decimal(n / 10) + [DigitChar(n % 10)];
      assert r[..|r| - 1] == Decimal(n / 10);
      r
  }

  /** `f'{n}'` for any integer: a minus sign before the numeral of a negative one. */
  function IntToString(n: int): (r: string)
    ensures IsWord(r)
    ensures r[0] == '-' <==> n < 0
    ensures n >= 0 ==> r == Decimal(n)
    ensures n < 0 ==> r[1..] == Decimal(-n)
  {
    if n < 0 then "-" + Decimal(-n) else Decimal(n)
  }

  /** The length of the longest whitespace-free prefix of `s`. */
  function WordLength(s: string): (k: nat)
    ensures k <= |s|
    ensures forall j :: 0 <= j < k ==> !IsSpace(s[j])
    ensures k == |s| || IsSpace(s[k])
  {
    if s == [] || IsSpace(s[0]) then 0 else 1 + WordLength(s[1..])
  }

  /** `s.split()`: the maximal whitespace-free runs of `s`, in order. */
  function Split(s: string): (ws: seq<string>)
    ensures AllWords(ws)
    decreases |s|
  {
    if s == [] then []
    else if IsSpace(s[0]) then Split(s[1..])
    else
      var k := WordLength(s);
      [s[..k]] + Split(s[k..])
  }

  /** `' '.join(ws)`: the words with exactly one space between two of them and nothing
      before the first or after the last. */
  function JoinWithSpaces(ws: seq<string>): (r: string)
    ensures AllWords(ws) ==> (r == [] <==> ws == [])
    ensures r == Weave(SingleSpaceGaps(|ws|), ws)
  {
    if ws == [] then ""
    else if |ws| == 1 then
      assert "" + ws[0] + "" == ws[0];
      ws[0]
    else
      var rest := JoinWithSpaces(ws[1..]);
      JoinStep(ws[0], ws[1..], SingleSpaceGaps(|ws| - 1), rest);
      assert [ws[0]] + ws[1..] == ws;
      ws[0] + " " + rest
  }

  /** One more word in front of a join adds an empty leading gap and widens the old leading
      gap by a single space. */
  lemma JoinStep(w: string, ws: seq<string>, g: seq<string>, rest: string)
    requires |g| == |ws| + 1 && g[0] == [] && rest == Weave(g, ws)
    ensures w + " " + rest == Weave([[]] + ([" " + g[0]] + g[1..]), [w] + ws)
  {
    var h := [[]] + ([" " + g[0]] + g[1..]);
    var v := [w] + ws;
    assert h[0] == [] && h[1..] == [" " + g[0]] + g[1..];
    assert v[0] == w && v[1..] == ws;
    WeaveWiden(" ", g, ws);
    ConcatAssoc(w, " ", rest);
  }

  /** The gaps `' '.join` leaves around `k` words: empty at both ends, a single space
      between two words. */
  function SingleSpaceGaps(k: nat): (gs: seq<string>)
    ensures SeparatingGaps(gs, k)
    ensures gs[0] == [] && gs[k] == []
    ensures forall i :: 0 < i < k ==> gs[i] == " "
  {
    if k <= 1 then seq(k + 1, _ => "")
    else
      var g := SingleSpaceGaps(k - 1);
      assert " " + g[0] == " ";
      var gs := [""] + ([" " + g[0]] + g[1..]);
      assert forall i :: 1 < i <= k ==> gs[i] == g[i - 1];
      gs
  }

  /** A word followed by whitespace or nothing is split off as the first token. */
  lemma SplitLeadingWord(w: string, t: string)
    requires IsWord(w)
    requires t == [] || IsSpace(t[0])
    ensures Split(w + t) == [w] + Split(t)
  {
    var s := w + t;
    assert WordLength(s) == |w| by {
      assert forall j :: 0 <= j < |w| ==> s[j] == w[j];
      assert |w| == |s| || s[|w|] == t[0];
    }
    assert s[..|w|] == w && s[|w|..] == t;
  }

  predicate AllSpace(g: string)
  {
    forall k :: 0 <= k < |g| ==> IsSpace(g[k])
  }

  /** Gaps of whitespace around the words: all whitespace, and non-empty between two words. */
  predicate SeparatingGaps(gs: seq<string>, n: nat)
  {
    && |gs| == n + 1
    && (forall k :: 0 <= k < |gs| ==> AllSpace(gs[k]))
    && (forall k :: 0 < k < n ==> gs[k] != [])
  }

  /** The text `gs[0] + ws[0] + gs[1] + ... + ws[n - 1] + gs[n]`. */
  function Weave(gs: seq<string>, ws: seq<string>): (r: string)
    requires |gs| == |ws| + 1
    ensures gs[0] != [] ==> r != [] && r[0] == gs[0][0]
    decreases |ws|
  {
    if ws == [] then gs[0] else gs[0] + ws[0] + Weave(gs[1..], ws[1..])
  }

  /** Leading whitespace does not change the tokens. */
  lemma {:induction false} SplitSkipsSpace(g: string, t: string)
    requires AllSpace(g)
    ensures Split(g + t) == Split(t)
    decreases |g|
  {
    if g == [] {
      assert g + t == t;
    } else {
      assert (g + t)[0] == g[0];
      assert (g + t)[1..] == g[1..] + t;
      SplitSkipsSpace(g[1..], t);
    }
  }

  /** Uniqueness: whenever `s` is words separated by whitespace gaps, `s.split()` is exactly
      those words, in order. */
  lemma {:induction false} SplitWeave(gs: seq<string>, ws: seq<string>)
    requires AllWords(ws) && SeparatingGaps(gs, |ws|)
    ensures Split(Weave(gs, ws)) == ws
    decreases |ws|
  {
    if ws == [] {
      SplitSkipsSpace(gs[0], []);
      assert gs[0] + [] == gs[0];
    } else {
      var rest := Weave(gs[1..], ws[1..]);
      assert AllWords(ws[1..]) by {
        assert forall k :: 0 <= k < |ws| - 1 ==> ws[1..][k] == ws[k + 1];
      }
      assert SeparatingGaps(gs[1..], |ws| - 1) by {
        assert forall k :: 0 <= k < |gs| - 1 ==> gs[1..][k] == gs[k + 1];
      }
      SplitWeave(gs[1..], ws[1..]);
      assert gs[0] + ws[0] + rest == gs[0] + (ws[0] + rest);
      SplitSkipsSpace(gs[0], ws[0] + rest);
      if |ws| == 1 {
        assert rest == gs[1];
      } else {
        assert rest[0] == gs[1][0];
      }
      SplitLeadingWord(ws[0], rest);
      assert [ws[0]] + ws[1..] == ws;
    }
  }

  /** The whitespace gaps `s.split()` discards: the leading one, one between each pair of
      words, and the trailing one. */
  function SplitGaps(s: string): (gs: seq<string>)
    ensures SeparatingGaps(gs, |Split(s)|)
    ensures s != [] && IsSpace(s[0]) ==> gs[0] != []
    decreases |s|
  {
    if s == [] then [""]
    else if IsSpace(s[0]) then
      var g := SplitGaps(s[1..]);
      [[s[0]] + g[0]] + g[1..]
    else
      var k := WordLength(s);
      [""] + SplitGaps(s[k..])
  }

  lemma WeaveWiden(c: string, gs: seq<string>, ws: seq<string>)
    requires |gs| == |ws| + 1
    ensures Weave([c + gs[0]] + gs[1..], ws) == c + Weave(gs, ws)
  {
    var hs := [c + gs[0]] + gs[1..];
    if ws != [] {
      assert hs[0] == c + gs[0] && hs[1..] == gs[1..];
      var w := Weave(gs[1..], ws[1..]);
      ConcatAssoc(c, gs[0], ws[0]);
      ConcatAssoc(c, gs[0] + ws[0], w);
    }
  }

  lemma ConcatAssoc(a: string, b: string, c: string)
    ensures a + (b + c) == (a + b) + c
  {
  }

  /** Existence: `s` is its words woven with the gaps `s.split()` discards. */
  lemma {:induction false} SplitGapsWeave(s: string)
    ensures Weave(SplitGaps(s), Split(s)) == s
    decreases |s|
  {
    if s == [] {
    } else if IsSpace(s[0]) {
      var g := SplitGaps(s[1..]);
      assert SplitGaps(s) == [[s[0]] + g[0]] + g[1..];
      assert Split(s) == Split(s[1..]);
      SplitGapsWeave(s[1..]);
      WeaveWiden([s[0]], g, Split(s[1..]));
      assert [s[0]] + s[1..] == s;
    } else {
      var k := WordLength(s);
      var gs := SplitGaps(s);
      var ws := Split(s);
      assert gs == [""] + SplitGaps(s[k..]);
      assert ws == [s[..k]] + Split(s[k..]);
      SplitGapsWeave(s[k..]);
      assert gs[1..] == SplitGaps(s[k..]) && ws[1..] == Split(s[k..]);
      assert Weave(gs, ws) == "" + s[..k] + Weave(gs[1..], ws[1..]);
      assert "" + s[..k] + s[k..] == s;
    }
  }

  /** Splitting a space-joined list of words gives the words back. */
  lemma SplitJoin(ws: seq<string>)
    requires AllWords(ws)
    ensures Split(JoinWithSpaces(ws)) == ws
  {
    SplitWeave(SingleSpaceGaps(|ws|), ws);
  }
}
