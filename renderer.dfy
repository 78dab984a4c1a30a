/**
 * The render server's scheduling core: how `update_render_tasks` turns the
 * metadata into a table of render tasks with consecutive slot numbers, how
 * `render_app` builds the `pixlet` command line, and where `copy_to_slot`
 * puts the result.
 */
module Renderer {
  import opened Basics
  import opened Json
  import opened Metadata

  const CACHE_DIR: string := "star_programs_cache"
  const GIF_DIR: string := "gifs"
  const TEMP_DIR: string := "temp"
  const DEFAULT_REFRESH_RATE: int := 60

  // ---------------------------------------------------------------------
  // render_app

  /** How the `pixlet` subprocess ended, as far as `render_app` can observe. */
  datatype Launch = Exited(code: int) | LaunchFailed

  /** The members `config.items()` yields; nothing when the config is not a dict. */
  function ConfigPairs(config: Json): (r: seq<(string, Json)>) {
    if config.JObj? then config.fields else []
  }

  /** `f"{key}={value}"` */
  function KeyValueArg(key: string, value: Json): (s: string) {
    key + "=" + PyStr(value)
  }

  /**
   * `render_app(app_path, output_path, config)`. `cmd` is the argument vector
   * handed to the subprocess, or None when building it raised (a truthy
   * config that is not a dict has no `items()`); `launch` is what running
   * that vector did. Every error ends in `ok == false`, never in an exception.
   */
  method RenderApp(appPath: string, outputPath: string, config: Json, launch: Launch)
    returns (cmd: Option<seq<string>>, ok: bool)
    ensures cmd.None? <==> Truthy(config) && !config.JObj?
    ensures cmd.Some? ==>
      var c, kv := cmd.value, ConfigPairs(config);
      && |c| == 6 + |kv|
      && c[..3] == ["pixlet", "render", appPath]
      && (forall i :: 0 <= i < |kv| ==> c[3 + i] == KeyValueArg(kv[i].0, kv[i].1))
      && c[3 + |kv|..] == ["--gif", "-o", outputPath]
    ensures ok <==> cmd.Some? && launch == Exited(0)
  {
    var c := ["pixlet", "render", appPath];
    if Truthy(config) {
      if !config.JObj? {
        return None, false;
      }
      var kv := config.fields;
      for i := 0 to |kv|
        invariant |c| == 3 + i
        invariant c[..3] == ["pixlet", "render", appPath]
        invariant forall k :: 0 <= k < i ==> c[3 + k] == KeyValueArg(kv[k].0, kv[k].1)
      {
        c := c + [KeyValueArg(kv[i].0, kv[i].1)];
      }
    }
    c := c + ["--gif", "-o", outputPath];
    cmd := Some(c);
    ok := launch == Exited(0);
  }

  // ---------------------------------------------------------------------
  // copy_to_slot

  /** `GIF_DIR / f"slot{n}.gif"`: the file `copy_to_slot` writes for slot n. */
  function SlotPath(n: nat): (s: string) {
    GIF_DIR + "/" + SlotFileName(n)
  }

  /** Two slots never write the same file. */
  lemma SlotPathInjective(a: nat, b: nat)
    ensures SlotPath(a) == SlotPath(b) ==> a == b
  {
    if SlotPath(a) == SlotPath(b) {
      assert SlotFileName(a) == SlotPath(a)[|GIF_DIR| + 1..];
      assert SlotFileName(b) == SlotPath(b)[|GIF_DIR| + 1..];
      SlotFileNameInjective(a, b);
    }
  }

  // ---------------------------------------------------------------------
  // one round of continuous_render

  /** `TEMP_DIR / f"{program_name}.gif"`: where a task's renders go first. */
  function TempOutput(name: string): (s: string) {
    TEMP_DIR + "/" + name + ".gif"
  }

  /** `config.get("config", {})`: the settings a task hands to `render_app`. */
  function RenderConfig(record: seq<(string, Json)>): (c: Json)
    ensures Lookup(record, "config").None? ==> c == JObj([])
    ensures Lookup(record, "config").Some? ==> c == Lookup(record, "config").value
  {
    GetOr(record, "config", JObj([]))
  }

  /**
   * One pass of the `continuous_render` loop for program `name` in slot
   * `slot` with metadata `record`: render to the temporary file, and copy it
   * to the slot's file only when the render succeeded. `copyOk` is whether
   * the file copy itself worked. The result is the slot file written, if any.
   */
  method RenderRound(name: string, programPath: string, slot: nat, record: seq<(string, Json)>,
                     launch: Launch, copyOk: bool)
    returns (written: Option<string>)
    ensures written.Some? ==> written.value == SlotPath(slot)
    ensures written.Some? <==>
      && launch == Exited(0) && copyOk
      && !(Truthy(RenderConfig(record)) && !RenderConfig(record).JObj?)
  {
    var cmd, ok := RenderApp(programPath, TempOutput(name), RenderConfig(record), launch);
    if ok && copyOk {
      written := Some(SlotPath(slot));
    } else {
      written := None;
    }
  }

  // ---------------------------------------------------------------------
  // update_render_tasks

  /** The arguments a `continuous_render` task was started with. */
  datatype RenderTask = RenderTask(
    name: string,
    programPath: string,
    slot: nat,
    record: seq<(string, Json)>,
    refreshRate: Json)

  /** The task started for program `name` with metadata `record` in `slot`. */
  function NewTask(name: string, record: seq<(string, Json)>, slot: nat): (t: RenderTask)
    ensures t.name == name && t.slot == slot && t.record == record
    ensures t.programPath == CACHE_DIR + "/" + name
    ensures Lookup(record, "refresh_rate").None? ==> t.refreshRate == JNum(DEFAULT_REFRESH_RATE)
    ensures Lookup(record, "refresh_rate").Some? ==> t.refreshRate == Lookup(record, "refresh_rate").value
  {
    RenderTask(name, CACHE_DIR + "/" + name, slot, record,
               GetOr(record, "refresh_rate", JNum(DEFAULT_REFRESH_RATE)))
  }

  /** A metadata entry that gets a render task: a dict, enabled, with its program file present. */
  predicate Scheduled(e: Entry, files: set<string>) {
    e.1.JObj? && IsEnabled(e.1.fields) && e.0 in files
  }

  /**
   * The tasks `update_render_tasks` creates for `items`, in creation order,
   * and whether the loop stopped on an entry that is not a dict
   * (`config.get` raises AttributeError).
   */
  datatype Plan = Plan(tasks: seq<RenderTask>, failed: bool)

  function PlanOf(items: seq<Entry>, files: set<string>): (p: Plan)
    decreases |items|
  {
    if items == [] then Plan([], false)
    else
      var p := PlanOf(items[..|items| - 1], files);
      var (name, record) := items[|items| - 1];
      if p.failed then p
      else if !record.JObj? then Plan(p.tasks, true)
      else if IsEnabled(record.fields) && name in files then
        Plan(p.tasks + [NewTask(name, record.fields, |p.tasks|)], false)
      else p
  }

  /** One step of PlanOf, with the entry's three tests folded into one. */
  lemma PlanStep(items: seq<Entry>, files: set<string>)
    requires items != []
    ensures var p, e := PlanOf(items[..|items| - 1], files), items[|items| - 1];
      PlanOf(items, files) ==
        if p.failed then p
        else if !e.1.JObj? then Plan(p.tasks, true)
        else if Scheduled(e, files) then Plan(p.tasks + [NewTask(e.0, e.1.fields, |p.tasks|)], false)
        else p
  {
  }

  /** The number of scheduled entries in `items`. */
  function CountScheduled(items: seq<Entry>, files: set<string>): (k: nat)
    decreases |items|
  {
    if items == [] then 0
    else CountScheduled(items[..|items| - 1], files)
         + (if Scheduled(items[|items| - 1], files) then 1 else 0)
  }

  /** `render_tasks[t.name] = t` for each task in turn. */
  function TableOf(ts: seq<RenderTask>): (m: map<string, RenderTask>)
    ensures m.Keys == set t | t in ts :: t.name
    decreases |ts|
  {
    if ts == [] then map[]
    else TableOf(ts[..|ts| - 1])[ts[|ts| - 1].name := ts[|ts| - 1]]
  }

  /** The members of a decoded document, if it is a dict. */
  function TopLevel(doc: Json): (r: seq<Entry>) {
    if doc.JObj? then doc.fields else []
  }

  /** Once the loop has raised on a prefix, later entries change nothing. */
  lemma {:induction false} PlanFailureSticks(items: seq<Entry>, files: set<string>, j: nat)
    requires j <= |items| && PlanOf(items[..j], files).failed
    ensures PlanOf(items, files) == PlanOf(items[..j], files)
    decreases |items| - j
  {
    if j < |items| {
      var n := |items|;
      assert items[..n - 1][..j] == items[..j];
      PlanFailureSticks(items[..n - 1], files, j);
    } else {
      assert items[..j] == items;
    }
  }

  /** The loop raises exactly when some entry is not a dict. */
  lemma {:induction false} PlanFailure(items: seq<Entry>, files: set<string>)
    ensures PlanOf(items, files).failed <==> exists i :: 0 <= i < |items| && !items[i].1.JObj?
    decreases |items|
  {
    if items != [] {
      var pre := items[..|items| - 1];
      PlanFailure(pre, files);
      assert forall i :: 0 <= i < |pre| ==> pre[i] == items[i];
    }
  }

  /** Scheduled entries receive slots 0, 1, 2, ... in the order the tasks are created. */
  lemma {:induction false} PlanSlots(items: seq<Entry>, files: set<string>)
    ensures var ts := PlanOf(items, files).tasks;
      forall k :: 0 <= k < |ts| ==> ts[k].slot == k
    decreases |items|
  {
    if items != [] {
      var pre := items[..|items| - 1];
      PlanSlots(pre, files);
      PlanStep(items, files);
    }
  }

  /**
   * Without an error, the task at position k (slot k) is the one for the
   * scheduled entry with k scheduled entries before it, and there is one
   * task per scheduled entry: skipped entries consume no slot.
   */
  lemma {:induction false} PlanSelection(items: seq<Entry>, files: set<string>)
    requires !PlanOf(items, files).failed
    ensures var ts := PlanOf(items, files).tasks;
      && |ts| == CountScheduled(items, files)
      && forall i :: 0 <= i < |items| && Scheduled(items[i], files) ==>
           var k := CountScheduled(items[..i], files);
           k < |ts| && ts[k] == NewTask(items[i].0, items[i].1.fields, k)
    decreases |items|
  {
    if items != [] {
      var n := |items|;
      var pre := items[..n - 1];
      PlanSelection(pre, files);
      assert items[..n - 1] == pre;
      forall i | 0 <= i < n - 1
        ensures items[..i] == pre[..i] && items[i] == pre[i]
      {
      }
    }
  }

  /** Every task belongs to a scheduled entry. */
  lemma {:induction false} PlanTasksScheduled(items: seq<Entry>, files: set<string>)
    ensures var ts := PlanOf(items, files).tasks;
      forall t :: t in ts ==>
        exists i :: 0 <= i < |items| && Scheduled(items[i], files)
          && t == NewTask(items[i].0, items[i].1.fields, t.slot)
    decreases |items|
  {
    if items != [] {
      var n := |items|;
      var pre := items[..n - 1];
      PlanTasksScheduled(pre, files);
      PlanStep(items, files);
      assert forall i :: 0 <= i < |pre| ==> pre[i] == items[i];
      var p := PlanOf(pre, files);
      var e := items[n - 1];
      if !p.failed && Scheduled(e, files) {
        var t := NewTask(e.0, e.1.fields, |p.tasks|);
        assert p.tasks + [t] == PlanOf(items, files).tasks;
        assert t == NewTask(items[n - 1].0, items[n - 1].1.fields, t.slot);
      }
    }
  }

  /**
   * Without an error, the table's keys are exactly the names of the entries
   * that are enabled and whose program file exists.
   */
  lemma TableKeys(items: seq<Entry>, files: set<string>)
    requires !PlanOf(items, files).failed
    ensures forall name :: name in TableOf(PlanOf(items, files).tasks) <==>
      exists i :: 0 <= i < |items| && items[i].0 == name && Scheduled(items[i], files)
  {
    var ts := PlanOf(items, files).tasks;
    PlanSelection(items, files);
    PlanTasksScheduled(items, files);
    forall name | name in TableOf(ts)
      ensures exists i :: 0 <= i < |items| && items[i].0 == name && Scheduled(items[i], files)
    {
      var t :| t in ts && t.name == name;
      var i :| 0 <= i < |items| && Scheduled(items[i], files)
        && t == NewTask(items[i].0, items[i].1.fields, t.slot);
      assert items[i].0 == name;
    }
    forall i | 0 <= i < |items| && Scheduled(items[i], files)
      ensures items[i].0 in TableOf(ts)
    {
      var k := CountScheduled(items[..i], files);
      assert ts[k].name == items[i].0;
    }
  }

  /** Top-level keys of a decoded JSON object are distinct. */
  predicate UniqueKeys(items: seq<Entry>) {
    forall i, j :: 0 <= i < j < |items| ==> items[i].0 != items[j].0
  }

  /**
   * With the distinct keys of a decoded object and no error, the task
   * registered under a scheduled entry's name is that entry's, in the slot
   * counting the scheduled entries before it.
   */
  lemma {:induction false} TableSlots(items: seq<Entry>, files: set<string>)
    requires UniqueKeys(items) && !PlanOf(items, files).failed
    ensures var table := TableOf(PlanOf(items, files).tasks);
      forall i :: 0 <= i < |items| && Scheduled(items[i], files) ==>
        items[i].0 in table
        && table[items[i].0] == NewTask(items[i].0, items[i].1.fields, CountScheduled(items[..i], files))
    decreases |items|
  {
    if items != [] {
      var n := |items|;
      var pre := items[..n - 1];
      PlanStep(items, files);
      assert UniqueKeys(pre);
      TableSlots(pre, files);
      forall i | 0 <= i < n && Scheduled(items[i], files)
        ensures var table := TableOf(PlanOf(items, files).tasks);
          items[i].0 in table
          && table[items[i].0] == NewTask(items[i].0, items[i].1.fields, CountScheduled(items[..i], files))
      {
        TableEntry(items, files, i);
      }
    }
  }

  /** The table after one more entry: that entry's task replaces any earlier one under its name. */
  lemma TableStep(items: seq<Entry>, files: set<string>)
    requires items != [] && !PlanOf(items, files).failed
    ensures var pre, e := items[..|items| - 1], items[|items| - 1];
      var p := PlanOf(pre, files);
      && !p.failed
      && TableOf(PlanOf(items, files).tasks) ==
        if Scheduled(e, files) then TableOf(p.tasks)[e.0 := NewTask(e.0, e.1.fields, |p.tasks|)]
        else TableOf(p.tasks)
  {
    var pre, e := items[..|items| - 1], items[|items| - 1];
    var p := PlanOf(pre, files);
    PlanStep(items, files);
    if Scheduled(e, files) {
      var t := NewTask(e.0, e.1.fields, |p.tasks|);
      assert (p.tasks + [t])[..|p.tasks|] == p.tasks;
    }
  }

  /** The inductive step of TableSlots for entry i, given the claim for the entries before the last. */
  lemma TableEntry(items: seq<Entry>, files: set<string>, i: nat)
    requires UniqueKeys(items) && !PlanOf(items, files).failed
    requires i < |items| && Scheduled(items[i], files)
    requires var pre := items[..|items| - 1];
      var table := TableOf(PlanOf(pre, files).tasks);
      forall j :: 0 <= j < |pre| && Scheduled(pre[j], files) ==>
        pre[j].0 in table
        && table[pre[j].0] == NewTask(pre[j].0, pre[j].1.fields, CountScheduled(pre[..j], files))
    ensures var table := TableOf(PlanOf(items, files).tasks);
      items[i].0 in table
      && table[items[i].0] == NewTask(items[i].0, items[i].1.fields, CountScheduled(items[..i], files))
  {
    var n := |items|;
    var pre, e := items[..n - 1], items[n - 1];
    TableStep(items, files);
    if i < n - 1 {
      assert items[..i] == pre[..i] && items[i] == pre[i];
      assert items[i].0 != e.0;
    } else {
      assert items[..i] == pre;
      PlanSelection(pre, files);
    }
  }

  /** What `update_render_tasks` found at `CACHE_DIR / "program_metadata.json"`. */
  datatype MetadataFile = Missing | Unreadable | Parsed(doc: Json)

  /** Whether `update_render_tasks` returned or re-raised an exception. */
  datatype Outcome = Completed | Raised

  /**
   * The identities of a table whose tasks were all started since the counter
   * stood at `base`: the task in slot k has identity base + k, below `next`,
   * and no two names share one.
   */
  ghost predicate IssuedSince(tasks: map<string, RenderTask>, ids: map<string, nat>, base: nat, next: nat) {
    && ids.Keys == tasks.Keys
    && (forall n :: n in ids ==> ids[n] == base + tasks[n].slot && base <= ids[n] < next)
    && (forall n, m :: n in ids && m in ids && n != m ==> ids[n] != ids[m])
  }

  /** Registering a task in the next slot under the next identity keeps IssuedSince. */
  lemma IssuedSinceRegister(tasks: map<string, RenderTask>, ids: map<string, nat>, base: nat, next: nat,
                            name: string, t: RenderTask)
    requires IssuedSince(tasks, ids, base, next) && next == base + t.slot
    ensures IssuedSince(tasks[name := t], ids[name := next], base, next + 1)
  {
  }

  /**
   * The module-level `render_tasks` dict. `tasks` holds the arguments each
   * registered task was started with; `ids` holds its identity, issued from
   * the counter `nextId` when `asyncio.create_task` starts it, so a new task
   * is told apart from an old one with equal arguments. `cancelled` holds the
   * identities of the tasks that have been asked to stop. A
   * `continuous_render` task only ends by cancellation, so every task in the
   * table is still running and `task.done()` is false for each.
   */
  class RenderScheduler {
    var tasks: map<string, RenderTask>
    var ids: map<string, nat>
    var nextId: nat
    var cancelled: set<nat>

    /** Every identity was issued, no two registered tasks share one, and no registered task was cancelled. */
    ghost predicate Valid()
      reads this
    {
      && ids.Keys == tasks.Keys
      && (forall n :: n in ids ==> ids[n] < nextId)
      && (forall c :: c in cancelled ==> c < nextId)
      && (forall n, m :: n in ids && m in ids && n != m ==> ids[n] != ids[m])
      && ids.Values !! cancelled
    }

    constructor ()
      ensures Valid()
      ensures tasks == map[] && ids == map[] && nextId == 0 && cancelled == {}
    {
      tasks := map[];
      ids := map[];
      nextId := 0;
      cancelled := {};
    }

    /** The loop of pixlet_renderer.py:138-142: every registered task is cancelled, then the table is cleared. */
    method CancelAll()
      modifies this
      ensures cancelled == old(cancelled) + old(ids).Values
      ensures tasks == map[] && ids == map[] && nextId == old(nextId)
    {
      var running := ids.Values;
      while running != {}
        invariant running <= old(ids).Values
        invariant ids == old(ids) && nextId == old(nextId)
        invariant cancelled == old(cancelled) + (old(ids).Values - running)
        decreases running
      {
        var t :| t in running;
        cancelled := cancelled + {t};
        running := running - {t};
      }
      tasks := map[];
      ids := map[];
    }

    /**
     * The loop of pixlet_renderer.py:148-172 on an emptied table: each
     * scheduled entry's task is started with the next identity and registered
     * under its name, until an entry that is not a dict raises.
     */
    method StartTasks(items: seq<Entry>, files: set<string>) returns (outcome: Outcome)
      requires tasks == map[] && ids == map[]
      modifies this
      ensures var plan := PlanOf(items, files);
        && tasks == TableOf(plan.tasks)
        && nextId == old(nextId) + |plan.tasks|
        && IssuedSince(tasks, ids, old(nextId), nextId)
        && cancelled == old(cancelled)
        && (outcome == Raised <==> plan.failed)
    {
      var slotNumber: nat := 0;
      for i := 0 to |items|
        invariant !PlanOf(items[..i], files).failed
        invariant tasks == TableOf(PlanOf(items[..i], files).tasks)
        invariant slotNumber == |PlanOf(items[..i], files).tasks|
        invariant nextId == old(nextId) + slotNumber
        invariant IssuedSince(tasks, ids, old(nextId), nextId)
        invariant cancelled == old(cancelled)
      {
        assert items[..i + 1][..i] == items[..i];
        var (name, record) := items[i];
        if !record.JObj? {
          PlanFailureSticks(items, files, i + 1);
          return Raised;
        }
        if IsEnabled(record.fields) && name in files {
          var task := NewTask(name, record.fields, slotNumber);
          ghost var ts := PlanOf(items[..i + 1], files).tasks;
          assert ts[..|ts| - 1] == PlanOf(items[..i], files).tasks;
          IssuedSinceRegister(tasks, ids, old(nextId), nextId, name, task);
          tasks := tasks[name := task];
          ids := ids[name := nextId];
          nextId := nextId + 1;
          slotNumber := slotNumber + 1;
        }
      }
      assert items[..|items|] == items;
      outcome := Completed;
    }

    /**
     * `update_render_tasks()`, given the metadata file and the names present
     * in the cache directory. A missing file leaves everything as it was; an
     * unreadable or unparsable one raises before anything is cancelled.
     * Otherwise every old task is cancelled and the table emptied, then one
     * new task per scheduled entry is started and registered, up to the first
     * entry that raises. The task in slot k gets the k-th identity issued by
     * this call, none of which was issued or cancelled before.
     */
    method UpdateRenderTasks(metadataFile: MetadataFile, files: set<string>) returns (outcome: Outcome)
      requires Valid()
      modifies this
      ensures Valid()
      ensures !metadataFile.Parsed? ==>
        && tasks == old(tasks) && ids == old(ids) && nextId == old(nextId) && cancelled == old(cancelled)
        && (outcome == Completed <==> metadataFile.Missing?)
      ensures metadataFile.Parsed? ==>
        var doc := metadataFile.doc;
        var plan := PlanOf(TopLevel(doc), files);
        && cancelled == old(cancelled) + old(ids).Values
        && tasks == TableOf(plan.tasks)
        && nextId == old(nextId) + |plan.tasks|
        && (forall n :: n in ids ==> ids[n] == old(nextId) + tasks[n].slot)
        && (outcome == Raised <==> !doc.JObj? || plan.failed)
    {
      if metadataFile.Missing? {
        return Completed;
      }
      if metadataFile.Unreadable? {
        return Raised;
      }
      var doc := metadataFile.doc;

      CancelAll();
      if !doc.JObj? {
        return Raised;
      }
      outcome := StartTasks(doc.fields, files);
    }
  }
}
