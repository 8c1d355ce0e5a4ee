/**
 * The clock window put together: what one tick of the periodic update shows,
 * and the worked startup scenarios.
 */
module Clock {
  import opened Results
  import opened Settings
  import opened TimeText
  import opened Geometry
  import opened Placement

  /** What one tick displays: the label text and the seconds bar. */
  datatype Frame = Frame(text: string, bar: Bar)

  /**
   * `update_time` followed by `update_seconds_bar`. The two read the clock
   * separately, so the bar's second is its own input; the bar is drawn
   * whether or not the text shows seconds.
   */
  function Tick(snap: Snapshot, h: nat, m: nat, s: nat, barSecond: nat, windowW: int, windowH: int): (f: Frame)
    requires IsTimeOfDay(h, m, s) && barSecond < 60
    ensures ParseTime(f.text) == Some(if snap.showSeconds then HMS(h, m, s) else HM(h, m))
    ensures |f.text| == |Placeholder(snap.showSeconds)|
    ensures f.bar.x == 0 && f.bar.y + f.bar.height == windowH && f.bar.height == snap.secondsBarHeight
    ensures f.bar.width == (barSecond as real / 60.0) * windowW as real
    ensures windowW > 0 ==> 0.0 <= f.bar.width < windowW as real
  {
    ParseFormat(h, m, s, snap.showSeconds);
    PlaceholderLength(h, m, s, snap.showSeconds);
    assert windowW > 0 ==> 0.0 <= BarWidth(barSecond, windowW) < windowW as real by {
      if windowW > 0 { BarWithinWindow(barSecond, windowW); }
    }
    Frame(FormatTime(h, m, s, snap.showSeconds),
          SecondsBar(barSecond, windowW, windowH, snap.secondsBarHeight))
  }

  /** A 200 x 60 label scaled by the default factors gives a 240 x 63 window. */
  lemma DefaultScaleScenario()
    ensures WindowSize(200, 60, DefaultSnapshot().widthScale, DefaultSnapshot().heightScale) == Size(240, 63)
  {
    assert 200 as real * 1.2 == 240.0;
    assert 60 as real * 1.05 == 63.0;
    assert (240.0).Floor == 240 && (63.0).Floor == 63;
  }

  /** That window on a 1920 x 1080 screen, centred and anchored bottom right. */
  lemma ScreenScenario()
    ensures Place("center", 1920, 1080, 240, 63) == Origin(840, 508)
    ensures Place("bottom_right", 1920, 1080, 240, 63) == Origin(1680, 1017)
  {
  }
}
