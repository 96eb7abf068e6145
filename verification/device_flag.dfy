/**
 * The XLA flag that fixes how many CPU devices the host platform exposes:
 * the pattern `[-]{0,2}xla_force_host_platform_device_count=(\d+)?(\s|$)`,
 * reading the count from the start of an `XLA_FLAGS` string, removing every
 * occurrence of the flag, and writing a fresh one in front.
 */
module DeviceCountFlag {
  import opened Results
  import opened Text

  /** The literal part of the pattern, between the optional dashes and the digits. */
  const FlagName: string := "xla_force_host_platform_device_count="

  /** One match of the pattern: the digits captured by group 1 (empty when the group did
      not take part) and the index just past the match, its whitespace character included. */
  datatype FlagMatch = FlagMatch(digits: string, end: nat)

  /** The exception `int(m.group(1))` raises when the flag carries no digits. */
  datatype ParseError = MissingDigits

  /** The pattern read as a language: `s[i..e]` is `d` dashes (at most two), the flag name,
      the digits `ds`, then one whitespace character, or nothing when the digits reach the
      end of `s`. */
  ghost predicate PatternAt(s: string, i: nat, d: nat, ds: string, e: nat)
  {
    var p := i + d + |FlagName|;
    var q := p + |ds|;
    && d <= 2
    && q <= |s|
    && e <= |s|
    && (forall t :: i <= t < i + d ==> s[t] == '-')
    && s[i + d..p] == FlagName
    && s[p..q] == ds
    && AllDigits(ds)
    && ((e == q + 1 && IsSpace(s[q])) || (e == q && q == |s|))
  }

  /** How many dashes `[-]{0,2}` takes greedily at `i`. */
  function DashCount(s: string, i: nat): (d: nat)
    requires i <= |s|
    ensures d <= 2 && i + d <= |s|
    ensures forall t :: i <= t < i + d ==> s[t] == '-'
  {
    if i + 2 <= |s| && s[i] == '-' && s[i + 1] == '-' then 2
    else if i < |s| && s[i] == '-' then 1
    else 0
  }

  /** How many digits `\d+` takes greedily at `j`. */
  function DigitRun(s: string, j: nat): (k: nat)
    requires j <= |s|
    ensures j + k <= |s|
    ensures forall t :: j <= t < j + k ==> IsDigit(s[t])
    ensures j + k == |s| || !IsDigit(s[j + k])
    decreases |s| - j
  {
    if j < |s| && IsDigit(s[j]) then 1 + DigitRun(s, j + 1) else 0
  }

  /** The match of the pattern anchored at `i`, as the backtracking matcher finds it.
      Fewer dashes never help (the flag name starts with `x`), and fewer digits never
      help (a digit is neither whitespace nor the end), so the greedy choices are final. */
  function MatchAt(s: string, i: nat): (r: Option<FlagMatch>)
    requires i <= |s|
    ensures r.Some? ==> i < r.value.end <= |s| && AllDigits(r.value.digits)
  {
    var n := i + DashCount(s, i);
    var p := n + |FlagName|;
    if p <= |s| && s[n..p] == FlagName then
      var q := p + DigitRun(s, p);
      assert AllDigits(s[p..q]) by {
        assert forall t :: 0 <= t < q - p ==> s[p..q][t] == s[p + t];
      }
      if q == |s| then Some(FlagMatch(s[p..q], q))
      else if IsSpace(s[q]) then Some(FlagMatch(s[p..q], q + 1))
      else None
    else None
  }

  /** Every match the matcher reports is a decomposition of the pattern. */
  lemma MatchAtSound(s: string, i: nat)
    requires i <= |s| && MatchAt(s, i).Some?
    ensures PatternAt(s, i, DashCount(s, i), MatchAt(s, i).value.digits, MatchAt(s, i).value.end)
  {
  }

  /** Every decomposition of the pattern at `i` is the one the matcher reports. */
  lemma MatchAtComplete(s: string, i: nat, d: nat, ds: string, e: nat)
    requires i <= |s| && PatternAt(s, i, d, ds, e)
    ensures MatchAt(s, i) == Some(FlagMatch(ds, e))
  {
    var p := i + d + |FlagName|;
    var q := p + |ds|;
    assert s[i + d] == FlagName[0] == 'x';
    assert DashCount(s, i) == d;
    assert forall t :: p <= t < q ==> s[t] == ds[t - p];
    assert q == |s| || !IsDigit(s[q]);
    assert DigitRun(s, p) == |ds|;
  }

  /** `get_n_cpu_devices_from_xla_flags` on the value of `XLA_FLAGS` (an unset variable
      reads as the empty string): the count written at the start, or 1 when the string
      does not start with the flag. */
  function ParseDeviceCount(flags: string): (r: Result<nat, ParseError>)
    ensures r != Ok(1) ==>
              exists d, ds, e :: PatternAt(flags, 0, d, ds, e) && (r.Err? <==> ds == [])
  {
    match MatchAt(flags, 0)
    case None => Ok(1)
    case Some(m) =>
      MatchAtSound(flags, 0);
      if m.digits == [] then Err(MissingDigits) else Ok(DecimalValue(m.digits))
  }

  /** A string that starts with the flag yields the flag's count, or the error when the
      flag has no digits. */
  lemma ParseMatched(flags: string, d: nat, ds: string, e: nat)
    requires PatternAt(flags, 0, d, ds, e)
    ensures ParseDeviceCount(flags) == if ds == [] then Err(MissingDigits) else Ok(DecimalValue(ds))
  {
    MatchAtComplete(flags, 0, d, ds, e);
  }

  /** Any other string, the empty one included, yields 1. */
  lemma ParseUnmatched(flags: string)
    requires forall d, ds, e :: !PatternAt(flags, 0, d, ds, e)
    ensures ParseDeviceCount(flags) == Ok(1)
  {
    if MatchAt(flags, 0).Some? {
      MatchAtSound(flags, 0);
    }
  }

  /** `re.sub(pattern, '', s[i..])` as it scans `s`: at each position either a match is
      dropped, trailing whitespace character and all, and the scan resumes after it, or
      one character is kept. */
  function RemoveFlagsFrom(s: string, i: nat): string
    requires i <= |s|
    decreases |s| - i
  {
    if i == |s| then ""
    else match MatchAt(s, i)
      case Some(m) => RemoveFlagsFrom(s, m.end)
      case None => [s[i]] + RemoveFlagsFrom(s, i + 1)
  }

  /** `re.sub(pattern, '', s)`: the characters left once every match is dropped. */
  function RemoveFlags(s: string): (r: string)
    ensures |r| <= |s|
  {
    RemoveShrinks(s, 0);
    RemoveFlagsFrom(s, 0)
  }

  lemma {:induction false} RemoveShrinks(s: string, i: nat)
    requires i <= |s|
    ensures |RemoveFlagsFrom(s, i)| <= |s| - i
    decreases |s| - i
  {
    if i < |s| {
      match MatchAt(s, i)
      case Some(m) => RemoveShrinks(s, m.end);
      case None => RemoveShrinks(s, i + 1);
    }
  }

  /** No match of the pattern starts at any index in `[i, j)`. */
  predicate NoMatchBetween(s: string, i: nat, j: nat)
    requires j <= |s|
  {
    forall t :: i <= t < j ==> MatchAt(s, t).None?
  }

  /** The scan keeps everything up to the leftmost match, drops that match, and goes on
      after it. */
  lemma {:induction false} RemoveLeftmost(s: string, i: nat, j: nat, m: FlagMatch)
    requires i <= j < |s|
    requires NoMatchBetween(s, i, j)
    requires MatchAt(s, j) == Some(m)
    ensures RemoveFlagsFrom(s, i) == s[i..j] + RemoveFlagsFrom(s, m.end)
    decreases j - i
  {
    if i < j {
      var rest := RemoveFlagsFrom(s, m.end);
      RemoveKeeps(s, i);
      RemoveLeftmost(s, i + 1, j, m);
      SliceCons(s, i, j);
      ConcatAssoc([s[i]], s[i + 1..j], rest);
    } else {
      RemoveDrops(s, i, m);
    }
  }

  /** Unfolding step of `RemoveFlagsFrom`: where a match starts, the scan drops it and
      resumes after it. */
  lemma RemoveDrops(s: string, i: nat, m: FlagMatch)
    requires i < |s| && MatchAt(s, i) == Some(m)
    ensures RemoveFlagsFrom(s, i) == RemoveFlagsFrom(s, m.end)
  {
  }

  /** Unfolding step of `RemoveFlagsFrom`: where no match starts, the scan keeps one
      character. */
  lemma RemoveKeeps(s: string, i: nat)
    requires i < |s| && MatchAt(s, i).None?
    ensures RemoveFlagsFrom(s, i) == [s[i]] + RemoveFlagsFrom(s, i + 1)
  {
  }

  lemma SliceCons(s: string, i: nat, j: nat)
    requires i < j <= |s|
    ensures s[i..j] == [s[i]] + s[i + 1..j]
  {
  }

  /** Where no match starts, the scan keeps the rest of the string as it is. */
  lemma {:induction false} RemoveNone(s: string, i: nat)
    requires i <= |s|
    requires NoMatchBetween(s, i, |s|)
    ensures RemoveFlagsFrom(s, i) == s[i..]
    decreases |s| - i
  {
    if i < |s| {
      RemoveKeeps(s, i);
      RemoveNone(s, i + 1);
      SliceCons(s, i, |s|);
    }
  }

  /** The flag `set_n_cpu_devices` writes for `n`. */
  function CountFlag(n: int): (f: string)
    ensures IsWord(f)
  {
    var lead := "--" + FlagName;
    assert IsWord(lead);
    WordConcat(lead, IntToString(n));
    lead + IntToString(n)
  }

  /** The new `XLA_FLAGS` value `set_n_cpu_devices` stores for `n`. */
  function RewriteFlags(flags: string, n: int): (r: string)
    ensures Split(r) == [CountFlag(n)] + Split(RemoveFlags(flags))
    ensures var ws := [CountFlag(n)] + Split(RemoveFlags(flags));
            r == Weave(SingleSpaceGaps(|ws|), ws)
  {
    var ws := [CountFlag(n)] + Split(RemoveFlags(flags));
    WordsCons(CountFlag(n), Split(RemoveFlags(flags)));
    SplitJoin(ws);
    JoinWithSpaces(ws)
  }

  /** The rewritten value is the flag, then either nothing or a space and the rest. */
  lemma RewriteLayout(flags: string, n: int)
    ensures var r := RewriteFlags(flags, n);
            var f := CountFlag(n);
            |f| <= |r| && r[..|f|] == f && (|r| == |f| || r[|f|] == ' ')
  {
    var ws := [CountFlag(n)] + Split(RemoveFlags(flags));
    if |ws| > 1 {
      assert ws[1..] == Split(RemoveFlags(flags));
      var r := CountFlag(n) + " " + JoinWithSpaces(ws[1..]);
      assert r[..|CountFlag(n)|] == CountFlag(n);
    }
  }

  /** Any string that starts with the flag for `n >= 0`, followed by nothing or a space,
      parses to `n`. */
  lemma ParseCountFlag(r: string, n: int)
    requires n >= 0
    requires |CountFlag(n)| <= |r| && r[..|CountFlag(n)|] == CountFlag(n)
    requires |r| == |CountFlag(n)| || r[|CountFlag(n)|] == ' '
    ensures ParseDeviceCount(r) == Ok(n)
  {
    var f := CountFlag(n);
    var ds := Decimal(n);
    var p := 2 + |FlagName|;
    assert f == "--" + FlagName + ds;
    assert r[0] == '-' && r[1] == '-' by {
      assert r[0] == f[0] && r[1] == f[1];
    }
    assert r[2..p] == FlagName by {
      assert r[2..p] == f[2..p];
    }
    assert r[p..|f|] == ds by {
      assert r[p..|f|] == f[p..];
    }
    var e := if |r| == |f| then |f| else |f| + 1;
    assert p + |ds| == |f|;
    assert forall t :: 0 <= t < 2 ==> r[t] == '-';
    assert (e == |f| + 1 && IsSpace(r[|f|])) || (e == |f| && |f| == |r|) by {
      assert IsSpace(' ');
    }
    assert PatternAt(r, 0, 2, ds, e);
    ParseMatched(r, 2, ds, e);
  }

  /** After a rewrite with a non-negative count, parsing reads that count back. */
  lemma RewriteRoundTrip(flags: string, n: int)
    requires n >= 0
    ensures ParseDeviceCount(RewriteFlags(flags, n)) == Ok(n)
  {
    RewriteLayout(flags, n);
    ParseCountFlag(RewriteFlags(flags, n), n);
  }

  /** Any string that starts with the flag for a negative count does not match the pattern
      at its start, so it parses to 1. */
  lemma ParseNegativeFlag(r: string, n: int)
    requires n < 0
    requires |CountFlag(n)| <= |r| && r[..|CountFlag(n)|] == CountFlag(n)
    ensures ParseDeviceCount(r) == Ok(1)
  {
    var f := CountFlag(n);
    var p := 2 + |FlagName|;
    assert r[0] == '-' && r[1] == '-' by {
      assert r[0] == f[0] && r[1] == f[1];
    }
    assert DashCount(r, 0) == 2;
    assert r[2..p] == FlagName by {
      assert r[2..p] == f[2..p];
    }
    assert r[p] == '-' by {
      assert r[p] == f[p] == IntToString(n)[0];
    }
    assert DigitRun(r, p) == 0;
  }

  /** A negative count is written with its minus sign, which the pattern does not accept,
      so parsing the rewritten value yields 1. */
  lemma RewriteNegative(flags: string, n: int)
    requires n < 0
    ensures ParseDeviceCount(RewriteFlags(flags, n)) == Ok(1)
  {
    RewriteLayout(flags, n);
    ParseNegativeFlag(RewriteFlags(flags, n), n);
  }
}
