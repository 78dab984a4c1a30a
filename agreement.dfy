/**
 * The render server and the display read the same metadata document and
 * each number the programs `slot0.gif`, `slot1.gif`, ... on their own: the
 * server among enabled entries whose program file exists, the display
 * among enabled entries. This module relates the two numberings.
 */
module SlotAgreement {
  import opened Json
  import opened Metadata
  import Renderer
  import Display

  /** (program, slot file) pairs in the order the server creates its render tasks. */
  function ServerSlots(ts: seq<Renderer.RenderTask>): (r: seq<(string, string)>)
    ensures |r| == |ts|
    decreases |ts|
  {
    if ts == [] then []
    else
      var t := ts[|ts| - 1];
      ServerSlots(ts[..|ts| - 1]) + [(t.name, SlotFileName(t.slot))]
  }

  /** (program, slot file) pairs in the order the display collects its playlist, before sorting. */
  function DisplaySlots(ps: seq<Display.Program>): (r: seq<(string, string)>)
    ensures |r| == |ps|
    decreases |ps|
  {
    if ps == [] then []
    else
      var p := ps[|ps| - 1];
      DisplaySlots(ps[..|ps| - 1]) + [(p.name, p.slot)]
  }

  /** The server schedules no `_config` entry; the display never lists one. */
  predicate ConfigNotScheduled(items: seq<Entry>) {
    forall i :: 0 <= i < |items| && items[i].0 == Display.CONFIG_KEY ==>
      !(items[i].1.JObj? && IsEnabled(items[i].1.fields))
  }

  /** Every entry the display shows has its program file on the server. */
  predicate EveryShownHasFile(items: seq<Entry>, files: set<string>) {
    forall i :: 0 <= i < |items| && Display.Shown(items[i]) ==> items[i].0 in files
  }

  lemma {:induction false} AllDicts(items: seq<Entry>, files: set<string>)
    requires forall i :: 0 <= i < |items| ==> items[i].1.JObj?
    ensures !Renderer.PlanOf(items, files).failed && Display.Collect(items).Some?
  {
    Renderer.PlanFailure(items, files);
    Display.CollectFailure(items);
  }

  lemma ServerSlotsAppend(ts: seq<Renderer.RenderTask>, t: Renderer.RenderTask)
    ensures ServerSlots(ts + [t]) == ServerSlots(ts) + [(t.name, SlotFileName(t.slot))]
  {
    assert (ts + [t])[..|ts|] == ts;
  }

  lemma DisplaySlotsAppend(ps: seq<Display.Program>, p: Display.Program)
    ensures DisplaySlots(ps + [p]) == DisplaySlots(ps) + [(p.name, p.slot)]
  {
    assert (ps + [p])[..|ps|] == ps;
  }

  /** With every shown entry's file present, both sides build the same (program, slot) list. */
  lemma {:induction false} SameSlotsWhenFilesPresent(items: seq<Entry>, files: set<string>)
    requires forall i :: 0 <= i < |items| ==> items[i].1.JObj?
    requires ConfigNotScheduled(items) && EveryShownHasFile(items, files)
    ensures !Renderer.PlanOf(items, files).failed && Display.Collect(items).Some?
    ensures ServerSlots(Renderer.PlanOf(items, files).tasks) == DisplaySlots(Display.Collect(items).value)
    decreases |items|
  {
    AllDicts(items, files);
    if items != [] {
      var n := |items|;
      var pre := items[..n - 1];
      var e := items[n - 1];
      assert forall i :: 0 <= i < |pre| ==> pre[i] == items[i];
      SameSlotsWhenFilesPresent(pre, files);
      Renderer.PlanStep(items, files);
      Display.CollectStep(items);
      var ts := Renderer.PlanOf(pre, files).tasks;
      var ps := Display.Collect(pre).value;
      assert Renderer.Scheduled(e, files) <==> Display.Shown(e);
      if Display.Shown(e) {
        ServerSlotsAppend(ts, Renderer.NewTask(e.0, e.1.fields, |ts|));
        DisplaySlotsAppend(ps, Display.MakeProgram(e.0, e.1.fields, |ps|));
      }
    }
  }

  /** The server schedules at most as many programs as the display shows, and fewer when a shown file is missing. */
  lemma {:induction false} FewerScheduled(items: seq<Entry>, files: set<string>)
    requires ConfigNotScheduled(items)
    ensures Renderer.CountScheduled(items, files) <= Display.CountShown(items)
    ensures !EveryShownHasFile(items, files) ==>
      Renderer.CountScheduled(items, files) < Display.CountShown(items)
    decreases |items|
  {
    if items != [] {
      var n := |items|;
      var pre := items[..n - 1];
      assert forall i :: 0 <= i < |pre| ==> pre[i] == items[i];
      FewerScheduled(pre, files);
      if !EveryShownHasFile(items, files) && EveryShownHasFile(pre, files) {
        var i :| 0 <= i < n && Display.Shown(items[i]) && items[i].0 !in files;
        assert i == n - 1;
      }
    }
  }

  /**
   * When every entry is a dict and `_config` is not an enabled dict, the
   * server's slot files and the display's slot files name the same
   * programs in the same slots exactly when every enabled program has its
   * file on the server. Otherwise the display fetches, for some program, a
   * slot the server rendered for a different one (or never rendered).
   */
  lemma SlotAssignmentsAgree(items: seq<Entry>, files: set<string>)
    requires forall i :: 0 <= i < |items| ==> items[i].1.JObj?
    requires ConfigNotScheduled(items)
    ensures !Renderer.PlanOf(items, files).failed && Display.Collect(items).Some?
    ensures ServerSlots(Renderer.PlanOf(items, files).tasks) == DisplaySlots(Display.Collect(items).value)
      <==> EveryShownHasFile(items, files)
  {
    AllDicts(items, files);
    if EveryShownHasFile(items, files) {
      SameSlotsWhenFilesPresent(items, files);
    } else {
      FewerScheduled(items, files);
      Renderer.PlanSelection(items, files);
      Display.CollectLength(items);
    }
  }

  /**
   * The URL the display builds for slot n is the server URL followed by the
   * path the server copies slot n's GIF to. That this URL serves that file
   * rests on the server mounting the `gifs` directory at `/gifs` as static
   * files, which is not part of this model: the two strings agree because
   * both use the name `gifs`.
   */
  lemma GifUrlFetchesRenderedSlot(serverUrl: Json, n: nat)
    ensures Display.GifUrl(serverUrl, SlotFileName(n)) == PyStr(serverUrl) + "/" + Renderer.SlotPath(n)
  {
  }
}
