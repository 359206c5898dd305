/** Acceptance of one strategy channel's view: counts that reconcile, ranks without gaps, and a
    score that reconstructs for every displayed assessment. */
module StrategyChannels {
  import opened Doubles
  import opened Outcomes
  import D = Decimals
  import St = StrategyScore

  datatype Status = AdvanceToResearch | WatchForTrigger | Deprioritized | Unavailable

  datatype Displayed = Displayed(item: St.Assessment, status: Status, rank: int, parameterFingerprint: string)

  datatype View = View(channel: St.Channel, advancing: nat, watching: nat, qualifying: nat, records: seq<Displayed>)

  const DISPLAY_CAP: nat := 8

  /** Digits without superfluous leading zeros, optionally a point and more digits. */
  predicate PlainDecimal(s: string) {
    && D.Whole(s) != "" && D.AllDigits(D.Whole(s)) && D.AllDigits(D.Fraction(s))
    && (D.Point(s) < |s| ==> D.Fraction(s) != "")
    && (|D.Whole(s)| > 1 ==> s[0] != '0')
  }

  /** `s` is the number `w` without a superfluous zero in front, or that, a point and the digits `f`. */
  ghost predicate PlainlyWritten(s: string, w: string, f: string) {
    && w != "" && D.AllDigits(w) && (w[0] == '0' ==> w == "0") && D.AllDigits(f)
    && (s == w || (f != "" && s == w + "." + f))
  }

  lemma PlainIsPlainlyWritten(s: string)
    ensures PlainDecimal(s) <==> exists w, f :: PlainlyWritten(s, w, f)
  {
    if PlainDecimal(s) {
      var w, f := D.Whole(s), D.Fraction(s);
      assert w[0] == s[0] && (|w| == 1 && w[0] == '0' ==> w == "0");
      if D.Point(s) < |s| { assert s == w + "." + f; } else { assert s == w; }
      assert PlainlyWritten(s, w, f);
    }
    if w, f :| PlainlyWritten(s, w, f) {
      if s == w { D.PointOfDigits(w); } else { D.PointOf(w, f); }
    }
  }

  /** One assessment, displayed at `rank` of `channel`. */
  ghost predicate AssessmentOk(a: Displayed, channel: St.Channel, rank: int, fingerprint: string) {
    && a.item.channel == channel
    && (a.status.AdvanceToResearch? || a.status.WatchForTrigger?)
    && a.rank == rank
    && a.item.score.Some? && (exists w, f :: PlainlyWritten(a.item.score.value, w, f))
    && a.parameterFingerprint == fingerprint == St.PARAMETER_FINGERPRINT
    && (St.Technical(channel) ==> St.Reconstructs(a.item))
  }

  ghost predicate ViewOk(v: View, channel: St.Channel, fingerprint: string) {
    && v.channel == channel
    && v.qualifying == Plus(v.advancing, v.watching)
    && |v.records| == (if v.qualifying < DISPLAY_CAP then v.qualifying else DISPLAY_CAP)
    && forall i :: 0 <= i < |v.records| ==> AssessmentOk(v.records[i], channel, i + 1, fingerprint)
  }

  method ParseAssessment(a: Displayed, channel: St.Channel, rank: int, fingerprint: string) returns (ok: bool)
    ensures ok <==> AssessmentOk(a, channel, rank, fingerprint)
  {
    hide St.Reconstructs, PlainDecimal, PlainlyWritten;
    if a.item.score.Some? { PlainIsPlainlyWritten(a.item.score.value); }
    if a.item.channel != channel || !(a.status.AdvanceToResearch? || a.status.WatchForTrigger?) || a.rank != rank
       || a.item.score.None? || !PlainDecimal(a.item.score.value) || a.parameterFingerprint != fingerprint {
      return false;
    }
    var rows := St.StrategyScoreBreakdown(a.item, fingerprint);
    ok := rows.Success?;
  }

  method ParseChannel(v: View, channel: St.Channel, fingerprint: string) returns (ok: bool)
    ensures ok <==> ViewOk(v, channel, fingerprint)
  {
    hide AssessmentOk;
    if v.channel != channel || v.qualifying != Plus(v.advancing, v.watching)
       || |v.records| != (if v.qualifying < DISPLAY_CAP then v.qualifying else DISPLAY_CAP) {
      return false;
    }
    for i := 0 to |v.records|
      invariant forall k :: 0 <= k < i ==> AssessmentOk(v.records[k], channel, k + 1, fingerprint)
    {
      var accepted := ParseAssessment(v.records[i], channel, i + 1, fingerprint);
      if !accepted { return false; }
    }
    ok := true;
  }

  /** In an accepted view of a technical channel every displayed score has at most four decimals
      and is the printed weighted total up to trailing zeros: no two spellings of the whole part,
      and no assessment whose score differs from its evidence. */
  lemma AcceptedScoresArePrinted(v: View, channel: St.Channel, fingerprint: string, i: nat)
    requires St.Technical(channel) && i < |v.records|
    ensures ViewOk(v, channel, fingerprint) ==>
              var text := v.records[i].item.score.value;
              && D.Accepted(text)
              && D.Format4(D.Decimal4(text).value) == D.Whole(text) + "." + D.PadEnd(D.Fraction(text), 4)
  {
    hide D.Format4, D.PadEnd, D.Value, St.Components, St.Geometry, St.Inputs;
    if ViewOk(v, channel, fingerprint) {
      assert AssessmentOk(v.records[i], channel, i + 1, fingerprint);
      var text := v.records[i].item.score.value;
      assert St.Reconstructs(v.records[i].item);
      assert D.Decimal4(text).Some?;
      D.PrintOfParse(text);
      PlainIsPlainlyWritten(text);
      PlainHasNothingToStrip(text);
    }
  }

  lemma PlainHasNothingToStrip(s: string)
    requires PlainDecimal(s)
    ensures D.StripZeros(D.Whole(s)) == D.Whole(s)
  {
    assert D.Whole(s)[0] == s[0];
  }
}
