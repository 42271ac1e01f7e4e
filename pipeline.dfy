/**
 * What one generation run produces, as functions of the renderer: the icons
 * kept (a step whose render comes back empty is left out) and the progress
 * values reported after each table step.
 */
module Pipeline {
  import opened Catalog

  /** A generated icon: its display name and the data URL of its PNG. */
  datatype Icon = Icon(name: string, url: string)

  /** The icons kept from a sequence of steps: one per step whose render is non-empty, in step order. */
  function Kept(steps: seq<Step>, render: nat -> string): (icons: seq<Icon>)
    ensures |icons| <= |steps|
  {
    if steps == [] then []
    else
      var last := steps[|steps| - 1];
      var url := render(last.pixelSize);
      Kept(steps[..|steps| - 1], render) + (if url != "" then [Icon(last.name, url)] else [])
  }

  /** The icon list of a run whose source image decoded. */
  function Generated(render: nat -> string): (icons: seq<Icon>)
    ensures |icons| <= 17
  {
    IosSizesShape();
    Kept(RunSteps(), render)
  }

  /** One more step adds its icon at the end when its render is non-empty, and nothing otherwise. */
  lemma KeptSnoc(steps: seq<Step>, s: Step, render: nat -> string)
    ensures Kept(steps + [s], render) ==
      Kept(steps, render) + (if render(s.pixelSize) != "" then [Icon(s.name, render(s.pixelSize))] else [])
  {
    assert (steps + [s])[..|steps|] == steps;
  }

  /** Leaving out one step's icon does not disturb the others: keeping distributes over concatenation. */
  lemma {:induction false} KeptAppend(s1: seq<Step>, s2: seq<Step>, render: nat -> string)
    ensures Kept(s1 + s2, render) == Kept(s1, render) + Kept(s2, render)
    decreases |s2|
  {
    if s2 == [] {
      assert s1 + s2 == s1;
    } else {
      assert (s1 + s2)[..|s1 + s2| - 1] == s1 + s2[..|s2| - 1];
      KeptAppend(s1, s2[..|s2| - 1], render);
    }
  }

  /** An icon is kept exactly when some step has its name and renders, non-empty, to its URL. */
  lemma {:induction false} KeptMember(steps: seq<Step>, render: nat -> string, icon: Icon)
    ensures icon in Kept(steps, render) <==>
      exists k :: 0 <= k < |steps| && steps[k].name == icon.name && render(steps[k].pixelSize) == icon.url != ""
  {
    if steps != [] {
      var init := steps[..|steps| - 1];
      KeptMember(init, render, icon);
      if exists k :: 0 <= k < |init| && init[k].name == icon.name && render(init[k].pixelSize) == icon.url != "" {
        var k :| 0 <= k < |init| && init[k].name == icon.name && render(init[k].pixelSize) == icon.url != "";
        assert steps[k] == init[k];
      }
    }
  }

  /** At most one icon per step, and exactly one per step when every render is non-empty. */
  lemma {:induction false} KeptLength(steps: seq<Step>, render: nat -> string)
    ensures |Kept(steps, render)| <= |steps|
    ensures |Kept(steps, render)| == |steps| <==> forall k :: 0 <= k < |steps| ==> render(steps[k].pixelSize) != ""
  {
    if steps != [] {
      var init := steps[..|steps| - 1];
      KeptLength(init, render);
      assert forall k :: 0 <= k < |init| ==> init[k] == steps[k];
    }
  }

  /** When every render is non-empty, the icons are the steps themselves, one for one. */
  lemma {:induction false} KeptAll(steps: seq<Step>, render: nat -> string)
    requires forall k :: 0 <= k < |steps| ==> render(steps[k].pixelSize) != ""
    ensures |Kept(steps, render)| == |steps|
    ensures forall k :: 0 <= k < |steps| ==>
      Kept(steps, render)[k] == Icon(steps[k].name, render(steps[k].pixelSize))
  {
    if steps != [] {
      var init := steps[..|steps| - 1];
      KeptAll(init, render);
    }
  }

  /**
   * A run's icons: the table icons in table order, then the adaptive icon,
   * then the splash icon, each only if its render is non-empty; at most 17 in
   * all, and exactly 17 when no render comes back empty.
   */
  lemma GeneratedShape(render: nat -> string)
    ensures Generated(render) ==
      Kept(Steps(IOS_SIZES), render)
      + (if render(1024) != "" then [Icon("Android Adaptive Icon (1024x1024)", render(1024))] else [])
      + (if render(200) != "" then [Icon("Splash Icon (200x200)", render(200))] else [])
    ensures |RunSteps()| == 17 && |Generated(render)| <= 17
    ensures |Generated(render)| == 17 <==> forall k :: 0 <= k < |RunSteps()| ==> render(RunSteps()[k].pixelSize) != ""
  {
    var table := Steps(IOS_SIZES);
    KeptSnoc(table, ADAPTIVE_ICON, render);
    KeptSnoc(table + [ADAPTIVE_ICON], SPLASH_ICON, render);
    assert RunSteps() == table + [ADAPTIVE_ICON] + [SPLASH_ICON];
    RunStepsListed();
    KeptLength(RunSteps(), render);
  }

  /** Kept icons come from steps in increasing order: each is its step's name with that step's render. */
  lemma {:induction false} KeptOrder(steps: seq<Step>, render: nat -> string, i: nat, j: nat)
    requires i < j < |Kept(steps, render)|
    ensures exists a, b ::
      && 0 <= a < b < |steps|
      && Kept(steps, render)[i] == Icon(steps[a].name, render(steps[a].pixelSize))
      && Kept(steps, render)[j] == Icon(steps[b].name, render(steps[b].pixelSize))
  {
    var init, last := steps[..|steps| - 1], steps[|steps| - 1];
    var kept := Kept(init, render);
    assert forall k :: 0 <= k < |init| ==> init[k] == steps[k];
    if j < |kept| {
      KeptOrder(init, render, i, j);
      var a, b :| && 0 <= a < b < |init|
                   && kept[i] == Icon(init[a].name, render(init[a].pixelSize))
                   && kept[j] == Icon(init[b].name, render(init[b].pixelSize));
      assert Kept(steps, render)[i] == kept[i] && Kept(steps, render)[j] == kept[j];
      assert init[a] == steps[a] && init[b] == steps[b];
    } else {
      KeptNames(init, render, i);
      var a :| 0 <= a < |init| && kept[i] == Icon(init[a].name, render(init[a].pixelSize));
      assert Kept(steps, render)[i] == kept[i];
      assert init[a] == steps[a];
      assert Kept(steps, render)[j] == Icon(last.name, render(last.pixelSize));
    }
  }

  /** Each kept icon is one of the steps' names with that step's render. */
  lemma KeptNames(steps: seq<Step>, render: nat -> string, i: nat)
    requires i < |Kept(steps, render)|
    ensures exists a :: 0 <= a < |steps| && Kept(steps, render)[i] == Icon(steps[a].name, render(steps[a].pixelSize))
  {
    var icon := Kept(steps, render)[i];
    KeptMember(steps, render, icon);
    var a :| 0 <= a < |steps| && steps[a].name == icon.name && render(steps[a].pixelSize) == icon.url != "";
    assert icon == Icon(steps[a].name, render(steps[a].pixelSize));
  }

  // ----- Progress -----

  /** The percentage shown after `completed` of `total` table steps. */
  function ProgressAfter(completed: nat, total: nat): (percent: real)
    requires total > 0
    ensures 0.0 <= percent
    ensures completed <= total ==> percent <= 100.0
    ensures completed == total ==> percent == 100.0
  {
    (completed as real / total as real) * 100.0
  }

  /** The values reported after each of the first n table steps, in order. */
  function ProgressTrace(n: nat, total: nat): (trace: seq<real>)
    requires total > 0
    ensures |trace| == n
  {
    if n == 0 then [] else ProgressTrace(n - 1, total) + [ProgressAfter(n, total)]
  }

  /** More completed steps show a strictly larger percentage. */
  lemma ProgressIncreasing(k1: nat, k2: nat, total: nat)
    requires total > 0 && k1 < k2
    ensures ProgressAfter(k1, total) < ProgressAfter(k2, total)
  {
    var t := total as real;
    assert k1 as real / t < k2 as real / t by {
      assert k2 as real / t - k1 as real / t == (k2 - k1) as real / t;
    }
  }

  /** The k-th reported value is the percentage after k + 1 steps. */
  lemma {:induction false} ProgressTraceAt(n: nat, total: nat, k: nat)
    requires total > 0 && k < n
    ensures ProgressTrace(n, total)[k] == ProgressAfter(k + 1, total)
  {
    if k < n - 1 {
      ProgressTraceAt(n - 1, total, k);
    }
  }

  /** After between 1 and all of the steps the percentage is positive and at most 100, and exactly 100 after all. */
  lemma ProgressBounds(k: nat, total: nat)
    requires 0 < k <= total
    ensures 0.0 < ProgressAfter(k, total) <= 100.0
    ensures k == total ==> ProgressAfter(k, total) == 100.0
  {
    ProgressIncreasing(0, k, total);
    if k < total {
      ProgressIncreasing(k, total, total);
    }
  }

  /** Over a whole run the reported values strictly increase. */
  lemma ProgressTraceIncreasing(total: nat)
    requires total > 0
    ensures forall i, j :: 0 <= i < j < total ==> ProgressTrace(total, total)[i] < ProgressTrace(total, total)[j]
  {
    var trace := ProgressTrace(total, total);
    forall i, j | 0 <= i < j < total
      ensures trace[i] < trace[j]
    {
      ProgressTraceAt(total, total, i);
      ProgressTraceAt(total, total, j);
      ProgressIncreasing(i + 1, j + 1, total);
    }
  }

  /** Over a whole run the reported values stay within (0, 100], and the last one is exactly 100. */
  lemma ProgressTraceRange(total: nat)
    requires total > 0
    ensures forall i :: 0 <= i < total ==> 0.0 < ProgressTrace(total, total)[i] <= 100.0
    ensures ProgressTrace(total, total)[total - 1] == 100.0
  {
    var trace := ProgressTrace(total, total);
    forall i | 0 <= i < total
      ensures 0.0 < trace[i] <= 100.0
    {
      ProgressTraceAt(total, total, i);
      ProgressBounds(i + 1, total);
    }
    ProgressTraceAt(total, total, total - 1);
    ProgressBounds(total, total);
  }
}
