/** Frame time codes: `format_time` and `format_fime_span` of `pellipop/main.py` (the same
    `format_time` is repeated verbatim in `pellipop/old_main.py`), and their parsers. */
module TimeCode {
  import opened Wrappers
  import opened Strings

  datatype Clock = Clock(hours: nat, minutes: nat, seconds: nat)

  /** The two `divmod` steps of `format_time`: hours count units of `3600 * fps` frames, while
      minutes and seconds split the remainder by 60 without dividing it by `fps`. The result
      is the unique such split of `frame`. */
  function TimeFields(frame: nat, fps: nat): (c: Clock)
    requires fps > 0
    ensures c.hours * (3600 * fps) + c.minutes * 60 + c.seconds == frame
    ensures c.seconds < 60 && c.minutes * 60 + c.seconds < 3600 * fps
  {
    var unit := 3600 * fps;
    DivMod(frame, unit);
    var rest := frame % unit;
    DivMod(rest, 60);
    Clock(frame / unit, rest / 60, rest % 60)
  }

  /** The `f'{h:02d}h_{m:02d}m_{s:02d}s.jpg'` layout. */
  function RenderClock(c: Clock): string
  {
    Pad2(c.hours) + "h_" + Pad2(c.minutes) + "m_" + Pad2(c.seconds) + "s.jpg"
  }

  /** `format_time(frame, fps)` as written. */
  function FormatTime(frame: nat, fps: nat): string
    requires fps > 0
  {
    RenderClock(TimeFields(frame, fps))
  }

  /** Reads `HHh_MMm_SSs.jpg` back into its three numbers. */
  function ParseTime(name: string): Option<Clock>
  {
    if |name| < 5 || name[|name| - 5..] != "s.jpg" then None
    else
      var pieces := Split(name[..|name| - 5], '_');
      if |pieces| != 3 || |pieces[0]| == 0 || |pieces[1]| == 0 then None
      else if pieces[0][|pieces[0]| - 1] != 'h' || pieces[1][|pieces[1]| - 1] != 'm' then None
      else
        match (ParseNat(pieces[0][..|pieces[0]| - 1]), ParseNat(pieces[1][..|pieces[1]| - 1]), ParseNat(pieces[2]))
        case (Some(h), Some(m), Some(s)) => Some(Clock(h, m, s))
        case _ => None
  }

  lemma DigitsExclude(s: string, c: char)
    requires IsDigits(s) && !IsDigit(c)
    ensures c !in s
  {
  }

  /** Every time code reads back as the hours, minutes and seconds it was made from. */
  lemma RenderClockRoundTrip(c: Clock)
    ensures ParseTime(RenderClock(c)) == Some(c)
  {
    Pad2RoundTrip(c.hours);
    Pad2RoundTrip(c.minutes);
    Pad2RoundTrip(c.seconds);
    DigitsExclude(Pad2(c.hours), '_');
    DigitsExclude(Pad2(c.minutes), '_');
    DigitsExclude(Pad2(c.seconds), '_');
    ParseTimePieces(Pad2(c.hours), Pad2(c.minutes), Pad2(c.seconds));
  }

  /** A name laid out as `xh_ym_zs.jpg`, with no underscore in `x`, `y` or `z`, splits into
      the three numbers. */
  lemma ParseTimePieces(x: string, y: string, z: string)
    requires '_' !in x && '_' !in y && '_' !in z
    ensures ParseTime(x + "h_" + y + "m_" + z + "s.jpg") ==
      match (ParseNat(x), ParseNat(y), ParseNat(z))
      case (Some(h), Some(m), Some(s)) => Some(Clock(h, m, s))
      case _ => None
  {
    var a, b := x + "h", y + "m";
    var name := x + "h_" + y + "m_" + z + "s.jpg";
    assert name == a + ['_'] + b + ['_'] + z + "s.jpg";
    assert name[|name| - 5..] == "s.jpg";
    assert name[..|name| - 5] == a + ['_'] + (b + ['_'] + z);
    assert '_' !in a && '_' !in b;
    SplitFirst(a, b + ['_'] + z, '_');
    SplitFirst(b, z, '_');
    SplitFree(z, '_');
    assert a[..|a| - 1] == x;
    assert b[..|b| - 1] == y;
  }

  /** `format_time` round-trips through `ParseTime` to the `divmod` fields. */
  lemma FormatTimeRoundTrip(frame: nat, fps: nat)
    requires fps > 0
    ensures ParseTime(FormatTime(frame, fps)) == Some(TimeFields(frame, fps))
  {
    RenderClockRoundTrip(TimeFields(frame, fps));
  }

  /** Distinct frames get distinct names, so no frame overwrites another's file. */
  lemma FormatTimeInjective(a: nat, b: nat, fps: nat)
    requires fps > 0 && a != b
    ensures FormatTime(a, fps) != FormatTime(b, fps)
  {
    FormatTimeRoundTrip(a, fps);
    FormatTimeRoundTrip(b, fps);
  }

  /** At one frame per second the fields are the usual clock reading: minutes stay below 60. */
  lemma FormatTimeAtOneFps(frame: nat)
    ensures var c := TimeFields(frame, 1);
      c.minutes < 60 && c.seconds < 60 && c.hours * 3600 + c.minutes * 60 + c.seconds == frame
  {
  }

  /** Above one frame per second the minutes field passes 59: 125 frames at 25 fps. */
  lemma FormatTimeMinutesOverflow()
    ensures TimeFields(125, 25) == Clock(0, 2, 5)
    ensures FormatTime(125, 25) == "00h_02m_05s.jpg"
  {
    assert Pad2(0) == "00" && Pad2(2) == "02" && Pad2(5) == "05";
  }

  /** The evident intent of `format_time` (its commented-out predecessor computes
      `int(frame / fps)` first): the clock reading of the frame's whole second. */
  function IntendedFields(frame: nat, fps: nat): (c: Clock)
    requires fps > 0
    ensures c.hours * 3600 + c.minutes * 60 + c.seconds == frame / fps
    ensures c.minutes < 60 && c.seconds < 60
  {
    var t := frame / fps;
    Clock(t / 3600, (t % 3600) / 60, t % 60)
  }

  function FormatTimeIntended(frame: nat, fps: nat): string
    requires fps > 0
  {
    RenderClock(IntendedFields(frame, fps))
  }

  /** The intended time code is still a readable clock, and 125 frames at 25 fps is 5 s. */
  lemma FormatTimeIntendedReadsBack(frame: nat, fps: nat)
    requires fps > 0
    ensures ParseTime(FormatTimeIntended(frame, fps)) == Some(IntendedFields(frame, fps))
    ensures FormatTimeIntended(125, 25) == "00h_00m_05s.jpg"
  {
    RenderClockRoundTrip(IntendedFields(frame, fps));
    IntendedExample();
  }

  lemma IntendedExample()
    ensures FormatTimeIntended(125, 25) == "00h_00m_05s.jpg"
  {
    assert 125 / 25 == 5;
    assert IntendedFields(125, 25) == Clock(0, 0, 5);
    assert Pad2(0) == "00" && Pad2(5) == "05";
  }

  /** The two agree exactly when there is one frame per second. */
  lemma IntendedAgreesAtOneFps(frame: nat)
    ensures FormatTime(frame, 1) == FormatTimeIntended(frame, 1)
  {
  }

  // ---- time spans ----

  /** `format_fime_span(start, end)`. */
  function FormatTimeSpan(start: string, end: string): string
  {
    start + "TO" + end + ".jpg"
  }

  /** `s` has no occurrence of `"TO"`. */
  predicate NoTO(s: string)
  {
    forall i :: 0 <= i < |s| - 1 ==> !(s[i] == 'T' && s[i + 1] == 'O')
  }

  /** The index of the first `"TO"`. */
  function FirstTO(s: string): (r: Option<nat>)
    ensures r.Some? ==> r.value + 1 < |s| && s[r.value] == 'T' && s[r.value + 1] == 'O'
  {
    if |s| < 2 then None
    else if s[0] == 'T' && s[1] == 'O' then Some(0)
    else match FirstTO(s[1..])
      case None => None
      case Some(i) => Some(i + 1)
  }

  /** Splits a span name at its first `"TO"` and drops the final `".jpg"`. */
  function ParseTimeSpan(name: string): Option<(string, string)>
  {
    match FirstTO(name)
    case None => None
    case Some(i) =>
      var rest := name[i + 2..];
      if |rest| >= 4 && rest[|rest| - 4..] == ".jpg" then Some((name[..i], rest[..|rest| - 4]))
      else None
  }

  lemma {:induction false} FirstTOAfter(a: string, b: string)
    requires NoTO(a)
    ensures FirstTO(a + "TO" + b) == Some(|a|)
  {
    if a != [] {
      var s := a + "TO" + b;
      assert s[1..] == a[1..] + "TO" + b;
      assert !(s[0] == 'T' && s[1] == 'O') by {
        if |a| == 1 { assert s[1] == 'T'; } else { assert s[1] == a[1]; }
      }
      FirstTOAfter(a[1..], b);
    }
  }

  /** Splitting at the first `"TO"` recovers both ends when the start has no `"TO"`. */
  lemma TimeSpanRoundTrip(start: string, end: string)
    requires NoTO(start)
    ensures ParseTimeSpan(FormatTimeSpan(start, end)) == Some((start, end))
  {
    var name := FormatTimeSpan(start, end);
    assert name == start + "TO" + (end + ".jpg");
    FirstTOAfter(start, end + ".jpg");
    assert name[|start| + 2..] == end + ".jpg";
    assert name[..|start|] == start;
  }

  lemma {:induction false} RenderClockHasNoT(c: Clock)
    ensures 'T' !in RenderClock(c)
  {
    Pad2RoundTrip(c.hours);
    Pad2RoundTrip(c.minutes);
    Pad2RoundTrip(c.seconds);
    DigitsExclude(Pad2(c.hours), 'T');
    DigitsExclude(Pad2(c.minutes), 'T');
    DigitsExclude(Pad2(c.seconds), 'T');
  }

  /** A span built from two `format_time` names splits back into them, and each of those
      reads back as its clock; note that the end keeps its own `".jpg"` before the span's. */
  lemma FormatTimeSpanRoundTrip(first: nat, last: nat, fps: nat)
    requires fps > 0
    ensures var span := ParseTimeSpan(FormatTimeSpan(FormatTime(first, fps), FormatTime(last, fps)));
      span == Some((FormatTime(first, fps), FormatTime(last, fps))) &&
      ParseTime(span.value.0) == Some(TimeFields(first, fps)) &&
      ParseTime(span.value.1) == Some(TimeFields(last, fps))
  {
    RenderClockHasNoT(TimeFields(first, fps));
    TimeSpanRoundTrip(FormatTime(first, fps), FormatTime(last, fps));
    FormatTimeRoundTrip(first, fps);
    FormatTimeRoundTrip(last, fps);
  }
}
