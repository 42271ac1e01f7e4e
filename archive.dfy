/**
 * The ZIP archive as the component fills it: one entry per icon, at
 * `app-icons/<sanitised name>.png`, holding the icon's blob; an entry added
 * later under the same path replaces the earlier one.
 */
module Archive {
  import opened Wrappers
  import opened Catalog
  import opened FileNames
  import opened DataUrl
  import opened Pipeline

  /** The path of an icon's entry: the `app-icons` folder, the sanitised name, `.png`. */
  function EntryPath(name: string): (path: string)
    ensures |path| == |name| + 14
    ensures path[..10] == "app-icons/" && path[|path| - 4..] == ".png"
    ensures forall k :: 10 <= k < |path| - 4 ==> IsFileNameChar(path[k])
  {
    SanitizeAlphabet(name);
    "app-icons/" + Sanitize(name) + ".png"
  }

  /** Two icons share an entry exactly when their names sanitise alike. */
  lemma EntryPathInjective(a: string, b: string)
    ensures EntryPath(a) == EntryPath(b) <==> Sanitize(a) == Sanitize(b)
  {
    var pa, pb := EntryPath(a), EntryPath(b);
    assert pa[10..|pa| - 4] == Sanitize(a);
    assert pb[10..|pb| - 4] == Sanitize(b);
  }

  /** The entries after adding the icons in order, or the error of the first icon whose URL does not convert. */
  function ArchiveOf(icons: seq<Icon>, atob: string -> Option<string>): (r: Result<map<string, Blob>, BlobError>)
    ensures r.Ok? ==> |r.value| <= |icons|
  {
    if icons == [] then Ok(map[])
    else
      var last := icons[|icons| - 1];
      match ArchiveOf(icons[..|icons| - 1], atob)
      case Err(e) => Err(e)
      case Ok(entries) =>
        match BlobOf(last.url, atob)
        case Err(e) => Err(e)
        case Ok(blob) => Ok(entries[EntryPath(last.name) := blob])
  }

  /** The `forEach` that converts each icon's URL and adds it to the folder; the first failed conversion aborts it. */
  method AddIcons(icons: seq<Icon>, atob: string -> Option<string>) returns (r: Result<map<string, Blob>, BlobError>)
    ensures r == ArchiveOf(icons, atob)
  {
    var entries: map<string, Blob> := map[];
    var i := 0;
    while i < |icons|
      invariant 0 <= i <= |icons|
      invariant ArchiveOf(icons[..i], atob) == Ok(entries)
    {
      assert icons[..i + 1][..i] == icons[..i];
      var blob := DataUrlToBlob(icons[i].url, atob);
      if blob.Err? {
        ArchiveErrSticks(icons, atob, i + 1);
        return Err(blob.error);
      }
      entries := entries[EntryPath(icons[i].name) := blob.value];
      i := i + 1;
    }
    assert icons[..i] == icons;
    r := Ok(entries);
  }

  /** Once a prefix fails, the whole list fails with the same error. */
  lemma {:induction false} ArchiveErrSticks(icons: seq<Icon>, atob: string -> Option<string>, n: nat)
    requires n <= |icons| && ArchiveOf(icons[..n], atob).Err?
    ensures ArchiveOf(icons, atob) == ArchiveOf(icons[..n], atob)
    decreases |icons| - n
  {
    if n < |icons| {
      assert icons[..n + 1][..n] == icons[..n];
      ArchiveErrSticks(icons, atob, n + 1);
    } else {
      assert icons[..n] == icons;
    }
  }

  /** The archive is built exactly when every icon's URL converts. */
  lemma ArchiveSucceeds(icons: seq<Icon>, atob: string -> Option<string>)
    ensures ArchiveOf(icons, atob).Ok? <==> forall i :: 0 <= i < |icons| ==> BlobOf(icons[i].url, atob).Ok?
  {
    if ArchiveOf(icons, atob).Ok? {
      ArchiveOkConverts(icons, atob);
    } else {
      ArchiveErrFails(icons, atob);
    }
  }

  /** A built archive means every icon's URL converted. */
  lemma {:induction false} ArchiveOkConverts(icons: seq<Icon>, atob: string -> Option<string>)
    requires ArchiveOf(icons, atob).Ok?
    ensures forall i :: 0 <= i < |icons| ==> BlobOf(icons[i].url, atob).Ok?
  {
    if icons != [] {
      var init, last := icons[..|icons| - 1], icons[|icons| - 1];
      ArchiveOkSnoc(icons, atob);
      ArchiveOkConverts(init, atob);
      forall i | 0 <= i < |icons|
        ensures BlobOf(icons[i].url, atob).Ok?
      {
        if i < |init| {
          assert icons[i] == init[i];
        } else {
          assert icons[i] == last;
        }
      }
    }
  }

  /** A built archive was built from a built prefix and a converted last icon. */
  lemma ArchiveOkSnoc(icons: seq<Icon>, atob: string -> Option<string>)
    requires icons != [] && ArchiveOf(icons, atob).Ok?
    ensures ArchiveOf(icons[..|icons| - 1], atob).Ok? && BlobOf(icons[|icons| - 1].url, atob).Ok?
  {
  }

  /** A failed archive means some icon's URL did not convert. */
  lemma {:induction false} ArchiveErrFails(icons: seq<Icon>, atob: string -> Option<string>)
    requires ArchiveOf(icons, atob).Err?
    ensures exists i :: 0 <= i < |icons| && BlobOf(icons[i].url, atob).Err?
  {
    var init := icons[..|icons| - 1];
    if ArchiveOf(init, atob).Err? {
      ArchiveErrFails(init, atob);
      var i :| 0 <= i < |init| && BlobOf(init[i].url, atob).Err?;
      assert icons[i] == init[i];
    } else {
      assert BlobOf(icons[|icons| - 1].url, atob).Err?;
    }
  }

  /** The paths of the given icons' entries. */
  function EntryPaths(icons: seq<Icon>): set<string> {
    if icons == [] then {} else EntryPaths(icons[..|icons| - 1]) + {EntryPath(icons[|icons| - 1].name)}
  }

  /** A path is among the icons' paths exactly when some icon has it. */
  lemma {:induction false} EntryPathsMember(icons: seq<Icon>, p: string)
    ensures p in EntryPaths(icons) <==> exists i :: 0 <= i < |icons| && p == EntryPath(icons[i].name)
  {
    if icons != [] {
      var init := icons[..|icons| - 1];
      EntryPathsMember(init, p);
      assert forall i :: 0 <= i < |init| ==> init[i] == icons[i];
    }
  }

  /** The archive's entries are exactly the icons' paths: every icon has one, and there are no others. */
  lemma {:induction false} ArchiveKeys(icons: seq<Icon>, atob: string -> Option<string>)
    requires ArchiveOf(icons, atob).Ok?
    ensures ArchiveOf(icons, atob).value.Keys == EntryPaths(icons)
  {
    if icons != [] {
      ArchiveKeys(icons[..|icons| - 1], atob);
    }
  }

  /** An icon whose path no later icon shares keeps its own blob there: a later entry at the same path replaces an earlier one. */
  lemma {:induction false} ArchiveLastWins(icons: seq<Icon>, atob: string -> Option<string>, i: nat)
    requires ArchiveOf(icons, atob).Ok? && i < |icons|
    requires forall j :: i < j < |icons| ==> EntryPath(icons[j].name) != EntryPath(icons[i].name)
    ensures EntryPath(icons[i].name) in ArchiveOf(icons, atob).value && BlobOf(icons[i].url, atob).Ok?
    ensures ArchiveOf(icons, atob).value[EntryPath(icons[i].name)] == BlobOf(icons[i].url, atob).value
  {
    var init, last := icons[..|icons| - 1], icons[|icons| - 1];
    assert ArchiveOf(init, atob).Ok? && BlobOf(last.url, atob).Ok?;
    assert ArchiveOf(icons, atob).value == ArchiveOf(init, atob).value[EntryPath(last.name) := BlobOf(last.url, atob).value];
    if i < |init| {
      assert init[i] == icons[i];
      forall j | i < j < |init|
        ensures EntryPath(init[j].name) != EntryPath(init[i].name)
      {
        assert init[j] == icons[j];
      }
      ArchiveLastWins(init, atob, i);
    } else {
      assert icons[i] == last;
    }
  }

  /** No two icons' names sanitise alike. */
  predicate DistinctEntries(icons: seq<Icon>) {
    forall i, j :: 0 <= i < j < |icons| ==> Sanitize(icons[i].name) != Sanitize(icons[j].name)
  }

  /** With distinct sanitised names there is one entry per icon. */
  lemma {:induction false} ArchiveCount(icons: seq<Icon>, atob: string -> Option<string>)
    requires DistinctEntries(icons) && ArchiveOf(icons, atob).Ok?
    ensures |ArchiveOf(icons, atob).value| == |icons|
  {
    ArchiveKeys(icons, atob);
    EntryPathsCount(icons);
  }

  /** Icons with distinct sanitised names have as many paths as there are icons. */
  lemma {:induction false} EntryPathsCount(icons: seq<Icon>)
    requires DistinctEntries(icons)
    ensures |EntryPaths(icons)| == |icons|
  {
    if icons != [] {
      var init := icons[..|icons| - 1];
      var last := icons[|icons| - 1];
      assert forall i :: 0 <= i < |init| ==> init[i] == icons[i];
      EntryPathsCount(init);
      if EntryPath(last.name) in EntryPaths(init) {
        EntryPathsMember(init, EntryPath(last.name));
        var i :| 0 <= i < |init| && EntryPath(last.name) == EntryPath(init[i].name);
        EntryPathInjective(last.name, init[i].name);
        assert false;
      }
    }
  }

  /** The three features that tell the 17 run names apart once sanitised: length, first character, the scale digit. */
  function Signature(name: string): (int, char, char)
    requires |name| >= 2
  {
    (|name|, SanitizeChar(name[0]), SanitizeChar(name[|name| - 2]))
  }

  lemma SignatureSeparates(a: string, b: string)
    requires |a| >= 2 && |b| >= 2 && Signature(a) != Signature(b)
    ensures Sanitize(a) != Sanitize(b)
  {
    if |a| == |b| {
      if SanitizeChar(a[0]) != SanitizeChar(b[0]) {
        SanitizedApart(a, b, 0);
      } else {
        SanitizedApart(a, b, |a| - 2);
      }
    } else {
      SanitizedApart(a, b, 0);
    }
  }

  /** The signatures of the 17 run names, in run order. */
  const RUN_SIGNATURES: seq<(int, char, char)> := [
    (26, 'n', '1'), (26, 'n', '2'), (26, 'n', '3'),
    (22, 's', '1'), (22, 's', '2'), (22, 's', '3'),
    (23, 's', '1'), (23, 's', '2'), (23, 's', '3'),
    (17, 'a', '2'), (17, 'a', '3'),
    (22, 'i', '1'), (22, 'i', '2'),
    (30, 'i', '2'),
    (27, 'a', '1'),
    (33, 'a', '4'),
    (21, 's', '0')
  ]

  /** Signatures of the first nine run names (the rows rendered at three scales). */
  lemma FirstSignatures()
    ensures |RunSteps()| == 17
    ensures forall k :: 0 <= k < 9 ==> |RunSteps()[k].name| >= 2 && Signature(RunSteps()[k].name) == RUN_SIGNATURES[k]
  {
    RunStepsListed();
  }

  /** Signatures of the remaining eight run names. */
  lemma LastSignatures()
    ensures |RunSteps()| == 17
    ensures forall k :: 9 <= k < 17 ==> |RunSteps()[k].name| >= 2 && Signature(RunSteps()[k].name) == RUN_SIGNATURES[k]
  {
    RunStepsListed();
  }

  /** The 17 names of a run sanitise to 17 different entry names. */
  lemma RunNamesDistinct()
    ensures |RunSteps()| == 17
    ensures forall i, j :: 0 <= i < j < 17 ==> Sanitize(RunSteps()[i].name) != Sanitize(RunSteps()[j].name)
  {
    FirstSignatures();
    LastSignatures();
    var steps := RunSteps();
    forall i, j | 0 <= i < j < 17
      ensures Sanitize(steps[i].name) != Sanitize(steps[j].name)
    {
      assert RUN_SIGNATURES[i] != RUN_SIGNATURES[j];
      SignatureSeparates(steps[i].name, steps[j].name);
    }
  }

  /** Whatever the renderer leaves out, the icons of a run have distinct entry names. */
  lemma GeneratedDistinct(render: nat -> string)
    ensures DistinctEntries(Generated(render))
  {
    RunNamesDistinct();
    var icons := Generated(render);
    forall i, j | 0 <= i < j < |icons|
      ensures Sanitize(icons[i].name) != Sanitize(icons[j].name)
    {
      KeptOrder(RunSteps(), render, i, j);
    }
  }

  /** When a run's archive is built, it has one entry per icon, and each icon's blob is under its own path. */
  lemma GeneratedArchive(render: nat -> string, atob: string -> Option<string>)
    ensures ArchiveOf(Generated(render), atob).Ok? ==>
      && |ArchiveOf(Generated(render), atob).value| == |Generated(render)|
      && forall i :: 0 <= i < |Generated(render)| ==>
        && EntryPath(Generated(render)[i].name) in ArchiveOf(Generated(render), atob).value
        && BlobOf(Generated(render)[i].url, atob).Ok?
        && ArchiveOf(Generated(render), atob).value[EntryPath(Generated(render)[i].name)]
             == BlobOf(Generated(render)[i].url, atob).value
  {
    var icons := Generated(render);
    if ArchiveOf(icons, atob).Ok? {
      GeneratedDistinct(render);
      ArchiveCount(icons, atob);
      forall i | 0 <= i < |icons|
        ensures EntryPath(icons[i].name) in ArchiveOf(icons, atob).value && BlobOf(icons[i].url, atob).Ok?
        ensures ArchiveOf(icons, atob).value[EntryPath(icons[i].name)] == BlobOf(icons[i].url, atob).value
      {
        forall j | i < j < |icons|
          ensures EntryPath(icons[j].name) != EntryPath(icons[i].name)
        {
          EntryPathInjective(icons[j].name, icons[i].name);
        }
        ArchiveLastWins(icons, atob, i);
      }
    }
  }
}
