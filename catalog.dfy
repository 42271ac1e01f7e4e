/**
 * The fixed table of iOS icon sizes and its enumeration into
 * (display name, pixel size) steps, in table order and, within an entry,
 * in the order its scales are listed.
 */
module Catalog {
  import opened Numbers

  /**
   * One row of the size table. The logical size is kept in half points
   * (83.5 points is 167) so that every size in the table is exact.
   */
  datatype IconSize = IconSize(halfPoints: nat, scales: seq<nat>, name: string)

  /** One render request: the icon's display name and its square pixel size. */
  datatype Step = Step(name: string, pixelSize: nat)

  const IOS_SIZES: seq<IconSize> := [
    IconSize(40, [1, 2, 3], "Notification icon"),
    IconSize(58, [1, 2, 3], "Settings icon"),
    IconSize(80, [1, 2, 3], "Spotlight icon"),
    IconSize(120, [2, 3], "App icon"),
    IconSize(152, [1, 2], "iPad App icon"),
    IconSize(167, [2], "iPad Pro App icon"),
    IconSize(2048, [1], "App Store icon")
  ]

  /** The Android adaptive icon, rendered after the table. */
  const ADAPTIVE_ICON := Step("Android Adaptive Icon (1024x1024)", 1024)

  /** The splash icon, rendered last. */
  const SPLASH_ICON := Step("Splash Icon (200x200)", 200)

  /** The two outputs rendered after the table, in order. */
  const FIXED_STEPS: seq<Step> := [ADAPTIVE_ICON, SPLASH_ICON]

  /** A table row has a positive size and at least one positive scale. */
  predicate WellFormed(e: IconSize) {
    e.halfPoints > 0 && |e.scales| > 0 && forall k :: 0 <= k < |e.scales| ==> e.scales[k] > 0
  }

  /**
   * Math.round(size * scale) for size = halfPoints / 2: the integer nearest
   * to size * scale, a tie going up.
   */
  function PixelSize(halfPoints: nat, scale: nat): (px: nat)
    ensures px as real - 0.5 <= (halfPoints * scale) as real / 2.0 < px as real + 0.5
    ensures halfPoints > 0 && scale > 0 ==> px >= 1
  {
    (halfPoints * scale + 1) / 2
  }

  /** The display name `<name> <size>x<size>@<scale>x`. */
  function IconName(e: IconSize, scale: nat): string {
    e.name + " " + HalfText(e.halfPoints) + "x" + HalfText(e.halfPoints) + "@" + NatToString(scale) + "x"
  }

  /** The steps of one table row, one per scale, in listed order. */
  function EntrySteps(e: IconSize): (steps: seq<Step>)
    ensures |steps| == |e.scales|
  {
    seq(|e.scales|, k requires 0 <= k < |e.scales| =>
      Step(IconName(e, e.scales[k]), PixelSize(e.halfPoints, e.scales[k])))
  }

  /** The nested walk over the table: rows in order, and each row's scales in order. */
  function Steps(table: seq<IconSize>): (steps: seq<Step>)
    ensures |steps| == Total(table)
  {
    if table == [] then [] else Steps(table[..|table| - 1]) + EntrySteps(table[|table| - 1])
  }

  /** The `reduce` that sums the number of scales over the table. */
  function Total(table: seq<IconSize>): (n: nat)
  {
    if table == [] then 0 else Total(table[..|table| - 1]) + |table[|table| - 1].scales|
  }

  /** Every render request of one generation run, in the order it is made. */
  function RunSteps(): seq<Step> {
    Steps(IOS_SIZES) + FIXED_STEPS
  }

  /** The first j + 1 steps of a row are the first j and the step for scale j. */
  lemma EntryStepsPrefix(e: IconSize, j: nat)
    requires j < |e.scales|
    ensures EntrySteps(e)[..j + 1] ==
      EntrySteps(e)[..j] + [Step(IconName(e, e.scales[j]), PixelSize(e.halfPoints, e.scales[j]))]
  {
  }

  /**
   * A step's name starts with the row's name and a space and ends with '@',
   * the scale's digits and 'x'.
   */
  lemma IconNameParts(e: IconSize, scale: nat)
    ensures
      var r, d := IconName(e, scale), NatToString(scale);
      && |r| >= |e.name| + |d| + 3
      && r[..|e.name| + 1] == e.name + " "
      && r[|r| - |d| - 2..] == "@" + d + "x"
  {
    var d := NatToString(scale);
    var r := IconName(e, scale);
    var front, back := e.name + " ", "@" + d + "x";
    assert r == front + (HalfText(e.halfPoints) + "x" + HalfText(e.halfPoints)) + back;
    FrontAndBack(front, HalfText(e.halfPoints) + "x" + HalfText(e.halfPoints), back);
  }

  /** The scale can be read back from the digits at the end of a step's name. */
  lemma IconNameScale(e: IconSize, scale: nat)
    ensures
      var r, d := IconName(e, scale), NatToString(scale);
      && |r| >= |d| + 1
      && (forall i :: |r| - |d| - 1 <= i < |r| - 1 ==> IsDigit(r[i]))
      && ParseNat(r[|r| - |d| - 1..|r| - 1]) == scale
  {
    var r, d := IconName(e, scale), NatToString(scale);
    IconNameParts(e, scale);
    Between(r, d);
    ParseNatToString(scale);
  }

  /** The text between a final '@' and 'x'. */
  lemma Between(r: string, d: string)
    requires |r| >= |d| + 2 && r[|r| - |d| - 2..] == "@" + d + "x"
    ensures r[|r| - |d| - 1..|r| - 1] == d
  {
    var back := r[|r| - |d| - 2..];
    assert r[|r| - |d| - 1..|r| - 1] == back[1..|back| - 1];
  }

  /** The first and last parts of a concatenation can be sliced back out of it. */
  lemma FrontAndBack(front: string, middle: string, back: string)
    ensures
      var r := front + middle + back;
      && r[..|front|] == front
      && r[|r| - |back|..] == back
      && forall i :: 0 <= i < |back| ==> r[|r| - |back| + i] == back[i]
  {
  }

  /** `total` is zero exactly when no row lists a scale. */
  lemma {:induction false} TotalZero(table: seq<IconSize>)
    ensures Total(table) == 0 <==> forall i :: 0 <= i < |table| ==> table[i].scales == []
  {
    if table != [] {
      var init := table[..|table| - 1];
      TotalZero(init);
      assert forall i :: 0 <= i < |init| ==> init[i] == table[i];
    }
  }

  /** Walking two tables one after the other is walking their concatenation. */
  lemma {:induction false} StepsAppend(t1: seq<IconSize>, t2: seq<IconSize>)
    ensures Steps(t1 + t2) == Steps(t1) + Steps(t2)
    decreases |t2|
  {
    if t2 == [] {
      assert t1 + t2 == t1;
    } else {
      var init, last := t2[..|t2| - 1], t2[|t2| - 1];
      assert (t1 + t2)[..|t1 + t2| - 1] == t1 + init;
      assert (t1 + t2)[|t1 + t2| - 1] == last;
      StepsAppend(t1, init);
      assert Steps(t1 + t2) == Steps(t1 + init) + EntrySteps(last);
      assert Steps(t2) == Steps(init) + EntrySteps(last);
    }
  }

  /** Over a well-formed table every requested pixel size is a positive integer. */
  lemma {:induction false} StepsPositive(table: seq<IconSize>)
    requires forall i :: 0 <= i < |table| ==> WellFormed(table[i])
    ensures forall k :: 0 <= k < |Steps(table)| ==> Steps(table)[k].pixelSize >= 1
  {
    if table != [] {
      StepsPositive(table[..|table| - 1]);
      var e := table[|table| - 1];
      assert WellFormed(e);
      forall k | 0 <= k < |EntrySteps(e)|
        ensures EntrySteps(e)[k].pixelSize >= 1
      {
        assert e.scales[k] > 0;
      }
    }
  }

  /** Walking one more row of a table appends that row's steps. */
  lemma StepsSnoc(table: seq<IconSize>, k: nat)
    requires k < |table|
    ensures Steps(table[..k + 1]) == Steps(table[..k]) + EntrySteps(table[k])
    ensures Total(table[..k + 1]) == Total(table[..k]) + |table[k].scales|
  {
    assert table[..k + 1][..k] == table[..k];
  }

  /** The table itself: 7 well-formed rows, 15 scales in all. */
  lemma IosSizesShape()
    ensures forall i :: 0 <= i < |IOS_SIZES| ==> WellFormed(IOS_SIZES[i])
    ensures Total(IOS_SIZES) == 15
  {
    var t := IOS_SIZES;
    assert t[..0] == [];
    StepsSnoc(t, 0); StepsSnoc(t, 1); StepsSnoc(t, 2); StepsSnoc(t, 3);
    StepsSnoc(t, 4); StepsSnoc(t, 5); StepsSnoc(t, 6);
    assert t[..7] == t;
  }

  /** The steps of a row with one, two or three scales, spelled out. */
  lemma EntryStepsListed(e: IconSize)
    requires 1 <= |e.scales| <= 3
    ensures EntrySteps(e) == (
      var st := (k: nat) requires k < |e.scales| =>
        Step(IconName(e, e.scales[k]), PixelSize(e.halfPoints, e.scales[k]));
      if |e.scales| == 1 then [st(0)]
      else if |e.scales| == 2 then [st(0), st(1)]
      else [st(0), st(1), st(2)])
  {
  }

  /** The expected steps of each row of the iOS table. */
  const ROW_STEPS: seq<seq<Step>> := [
    [Step("Notification icon 20x20@1x", 20), Step("Notification icon 20x20@2x", 40), Step("Notification icon 20x20@3x", 60)],
    [Step("Settings icon 29x29@1x", 29), Step("Settings icon 29x29@2x", 58), Step("Settings icon 29x29@3x", 87)],
    [Step("Spotlight icon 40x40@1x", 40), Step("Spotlight icon 40x40@2x", 80), Step("Spotlight icon 40x40@3x", 120)],
    [Step("App icon 60x60@2x", 120), Step("App icon 60x60@3x", 180)],
    [Step("iPad App icon 76x76@1x", 76), Step("iPad App icon 76x76@2x", 152)],
    [Step("iPad Pro App icon 83.5x83.5@2x", 167)],
    [Step("App Store icon 1024x1024@1x", 1024)]
  ]

  // The expected steps of each row, one lemma per row.

  lemma NotificationRowListed()
    ensures EntrySteps(IOS_SIZES[0]) == ROW_STEPS[0]
  {
    var e0 := IOS_SIZES[0];
    assert HalfText(40) == "20";
    assert NatToString(1) == "1";
    assert IconName(e0, 1) == "Notification icon 20x20@1x";
    assert NatToString(2) == "2";
    assert IconName(e0, 2) == "Notification icon 20x20@2x";
    assert NatToString(3) == "3";
    assert IconName(e0, 3) == "Notification icon 20x20@3x";
    EntryStepsListed(e0);
  }

  lemma SettingsRowListed()
    ensures EntrySteps(IOS_SIZES[1]) == ROW_STEPS[1]
  {
    var e1 := IOS_SIZES[1];
    assert HalfText(58) == "29";
    assert NatToString(1) == "1";
    assert IconName(e1, 1) == "Settings icon 29x29@1x";
    assert NatToString(2) == "2";
    assert IconName(e1, 2) == "Settings icon 29x29@2x";
    assert NatToString(3) == "3";
    assert IconName(e1, 3) == "Settings icon 29x29@3x";
    EntryStepsListed(e1);
  }

  lemma SpotlightRowListed()
    ensures EntrySteps(IOS_SIZES[2]) == ROW_STEPS[2]
  {
    var e2 := IOS_SIZES[2];
    assert HalfText(80) == "40";
    assert NatToString(1) == "1";
    assert IconName(e2, 1) == "Spotlight icon 40x40@1x";
    assert NatToString(2) == "2";
    assert IconName(e2, 2) == "Spotlight icon 40x40@2x";
    assert NatToString(3) == "3";
    assert IconName(e2, 3) == "Spotlight icon 40x40@3x";
    EntryStepsListed(e2);
  }

  lemma AppRowListed()
    ensures EntrySteps(IOS_SIZES[3]) == ROW_STEPS[3]
  {
    var e3 := IOS_SIZES[3];
    assert HalfText(120) == "60";
    assert NatToString(2) == "2";
    assert IconName(e3, 2) == "App icon 60x60@2x";
    assert NatToString(3) == "3";
    assert IconName(e3, 3) == "App icon 60x60@3x";
    EntryStepsListed(e3);
  }

  lemma IpadRowListed()
    ensures EntrySteps(IOS_SIZES[4]) == ROW_STEPS[4]
  {
    var e4 := IOS_SIZES[4];
    assert HalfText(152) == "76";
    assert NatToString(1) == "1";
    assert IconName(e4, 1) == "iPad App icon 76x76@1x";
    assert NatToString(2) == "2";
    assert IconName(e4, 2) == "iPad App icon 76x76@2x";
    EntryStepsListed(e4);
  }

  lemma IpadProRowListed()
    ensures EntrySteps(IOS_SIZES[5]) == ROW_STEPS[5]
  {
    var e5 := IOS_SIZES[5];
    assert HalfText(167) == "83.5";
    assert NatToString(2) == "2";
    assert IconName(e5, 2) == "iPad Pro App icon 83.5x83.5@2x";
    EntryStepsListed(e5);
  }

  lemma AppStoreRowListed()
    ensures EntrySteps(IOS_SIZES[6]) == ROW_STEPS[6]
  {
    var e6 := IOS_SIZES[6];
    assert HalfText(2048) == "1024";
    assert NatToString(1) == "1";
    assert IconName(e6, 1) == "App Store icon 1024x1024@1x";
    EntryStepsListed(e6);
  }

  /** The 15 steps of the iOS table, in table order. */
  lemma TableStepsListed()
    ensures Steps(IOS_SIZES) == [
      Step("Notification icon 20x20@1x", 20),
      Step("Notification icon 20x20@2x", 40),
      Step("Notification icon 20x20@3x", 60),
      Step("Settings icon 29x29@1x", 29),
      Step("Settings icon 29x29@2x", 58),
      Step("Settings icon 29x29@3x", 87),
      Step("Spotlight icon 40x40@1x", 40),
      Step("Spotlight icon 40x40@2x", 80),
      Step("Spotlight icon 40x40@3x", 120),
      Step("App icon 60x60@2x", 120),
      Step("App icon 60x60@3x", 180),
      Step("iPad App icon 76x76@1x", 76),
      Step("iPad App icon 76x76@2x", 152),
      Step("iPad Pro App icon 83.5x83.5@2x", 167),
      Step("App Store icon 1024x1024@1x", 1024)
    ]
  {
    TableStepsRows();
    NotificationRowListed(); SettingsRowListed(); SpotlightRowListed();
    AppRowListed(); IpadRowListed(); IpadProRowListed(); AppStoreRowListed();
  }

  /** The table's steps are its rows' steps, row after row. */
  lemma TableStepsRows()
    ensures Steps(IOS_SIZES) ==
      EntrySteps(IOS_SIZES[0]) + EntrySteps(IOS_SIZES[1]) + EntrySteps(IOS_SIZES[2]) + EntrySteps(IOS_SIZES[3])
      + EntrySteps(IOS_SIZES[4]) + EntrySteps(IOS_SIZES[5]) + EntrySteps(IOS_SIZES[6])
  {
    var t := IOS_SIZES;
    assert t[..0] == [];
    assert t[..7] == t;
    StepsSnoc(t, 0); StepsSnoc(t, 1); StepsSnoc(t, 2); StepsSnoc(t, 3);
    StepsSnoc(t, 4); StepsSnoc(t, 5); StepsSnoc(t, 6);
  }

  /**
   * The full enumeration of one run: the 15 table steps in table order, then
   * the adaptive and splash icons, with their names and pixel sizes
   * (20 at scale 3 is 60, 83.5 at scale 2 is 167).
   */
  lemma RunStepsListed()
    ensures RunSteps() == [
      Step("Notification icon 20x20@1x", 20),
      Step("Notification icon 20x20@2x", 40),
      Step("Notification icon 20x20@3x", 60),
      Step("Settings icon 29x29@1x", 29),
      Step("Settings icon 29x29@2x", 58),
      Step("Settings icon 29x29@3x", 87),
      Step("Spotlight icon 40x40@1x", 40),
      Step("Spotlight icon 40x40@2x", 80),
      Step("Spotlight icon 40x40@3x", 120),
      Step("App icon 60x60@2x", 120),
      Step("App icon 60x60@3x", 180),
      Step("iPad App icon 76x76@1x", 76),
      Step("iPad App icon 76x76@2x", 152),
      Step("iPad Pro App icon 83.5x83.5@2x", 167),
      Step("App Store icon 1024x1024@1x", 1024),
      Step("Android Adaptive Icon (1024x1024)", 1024),
      Step("Splash Icon (200x200)", 200)
    ]
  {
    TableStepsListed();
  }
}
