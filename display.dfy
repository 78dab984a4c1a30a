/**
 * The LED display client: how `load_program_metadata` turns the metadata
 * into the playlist it cycles through, which frames the "loops" mode of
 * `display_gif` shows, and which URL each program's GIF is fetched from.
 */
module Display {
  import opened Basics
  import opened Json
  import opened Metadata

  const DEFAULT_SERVER_URL: string := "http://localhost:8000"
  const CONFIG_KEY: string := "_config"
  const DEFAULT_ORDER: int := 999

  /** One `program_config` dict of the playlist. */
  datatype Program = Program(name: string, duration: Json, durationUnit: Json, order: Json, slot: string)

  /** The playlist entry for program `name` with metadata `record`, in `slot`. */
  function MakeProgram(name: string, record: seq<(string, Json)>, slot: nat): (p: Program)
    ensures p.name == name && p.slot == SlotFileName(slot)
    ensures Lookup(record, "duration").None? ==> p.duration == JStr("30")
    ensures Lookup(record, "durationUnit").None? ==> p.durationUnit == JStr("seconds")
    ensures Lookup(record, "order").None? ==> p.order == JNum(DEFAULT_ORDER)
    ensures Lookup(record, "duration").Some? ==> p.duration == Lookup(record, "duration").value
    ensures Lookup(record, "durationUnit").Some? ==> p.durationUnit == Lookup(record, "durationUnit").value
    ensures Lookup(record, "order").Some? ==> p.order == Lookup(record, "order").value
  {
    Program(name,
            GetOr(record, "duration", JStr("30")),
            GetOr(record, "durationUnit", JStr("seconds")),
            GetOr(record, "order", JNum(DEFAULT_ORDER)),
            SlotFileName(slot))
  }

  /** An entry that makes it into the playlist. */
  predicate Shown(e: Entry) {
    e.0 != CONFIG_KEY && e.1.JObj? && IsEnabled(e.1.fields)
  }

  /** The number of entries of `items` that make it into the playlist. */
  function CountShown(items: seq<Entry>): (k: nat)
    decreases |items|
  {
    if items == [] then 0
    else CountShown(items[..|items| - 1]) + (if Shown(items[|items| - 1]) then 1 else 0)
  }

  /**
   * `enabled_programs` after the loop over `items`, or None when the loop
   * raised on an entry (other than `_config`) that is not a dict.
   */
  function Collect(items: seq<Entry>): (r: Option<seq<Program>>)
    decreases |items|
  {
    if items == [] then Some([])
    else
      match Collect(items[..|items| - 1])
      case None => None
      case Some(prev) =>
        var (name, record) := items[|items| - 1];
        if name == CONFIG_KEY then Some(prev)
        else if !record.JObj? then None
        else if IsEnabled(record.fields) then Some(prev + [MakeProgram(name, record.fields, |prev|)])
        else Some(prev)
  }

  lemma {:induction false} CollectFailureSticks(items: seq<Entry>, j: nat)
    requires j <= |items| && Collect(items[..j]).None?
    ensures Collect(items).None?
    decreases |items| - j
  {
    if j < |items| {
      var n := |items|;
      assert items[..n - 1][..j] == items[..j];
      CollectFailureSticks(items[..n - 1], j);
    } else {
      assert items[..j] == items;
    }
  }

  /** The loop raises exactly when an entry other than `_config` is not a dict. */
  lemma {:induction false} CollectFailure(items: seq<Entry>)
    ensures Collect(items).None? <==>
      exists i :: 0 <= i < |items| && items[i].0 != CONFIG_KEY && !items[i].1.JObj?
    decreases |items|
  {
    if items != [] {
      var pre := items[..|items| - 1];
      CollectFailure(pre);
      assert forall i :: 0 <= i < |pre| ==> pre[i] == items[i];
    }
  }

  /** One step of Collect, with the entry's tests folded into Shown. */
  lemma CollectStep(items: seq<Entry>)
    requires items != []
    ensures var c, e := Collect(items[..|items| - 1]), items[|items| - 1];
      Collect(items) ==
        if c.None? then None
        else if e.0 != CONFIG_KEY && !e.1.JObj? then None
        else if Shown(e) then Some(c.value + [MakeProgram(e.0, e.1.fields, |c.value|)])
        else c
  {
  }

  /** Before sorting, the entry at position k is named `slot{k}.gif`. */
  lemma {:induction false} CollectSlots(items: seq<Entry>)
    requires Collect(items).Some?
    ensures var ps := Collect(items).value;
      forall k :: 0 <= k < |ps| ==> ps[k].slot == SlotFileName(k)
    decreases |items|
  {
    if items != [] {
      CollectStep(items);
      CollectSlots(items[..|items| - 1]);
    }
  }

  /** There is one playlist entry per shown entry. */
  lemma {:induction false} CollectLength(items: seq<Entry>)
    requires Collect(items).Some?
    ensures |Collect(items).value| == CountShown(items)
    decreases |items|
  {
    if items != [] {
      CollectStep(items);
      CollectLength(items[..|items| - 1]);
    }
  }

  /**
   * Before sorting, the entry at position k is the one for the shown entry
   * with k shown entries before it: the enabled entries other than
   * `_config`, in metadata order, each with the slot counting the shown
   * entries before it.
   */
  lemma {:induction false} CollectDescribed(items: seq<Entry>)
    requires Collect(items).Some?
    ensures var ps := Collect(items).value;
      forall i :: 0 <= i < |items| && Shown(items[i]) ==>
        var k := CountShown(items[..i]);
        k < |ps| && ps[k] == MakeProgram(items[i].0, items[i].1.fields, k)
    decreases |items|
  {
    if items != [] {
      var n := |items|;
      var pre := items[..n - 1];
      CollectStep(items);
      CollectDescribed(pre);
      forall i | 0 <= i < n && Shown(items[i])
        ensures var k := CountShown(items[..i]);
          k < |Collect(items).value| && Collect(items).value[k] == MakeProgram(items[i].0, items[i].1.fields, k)
      {
        CollectEntry(items, i);
      }
    }
  }

  /** The inductive step of CollectDescribed for entry i. */
  lemma CollectEntry(items: seq<Entry>, i: nat)
    requires Collect(items).Some? && i < |items| && Shown(items[i])
    requires var pre := items[..|items| - 1];
      Collect(pre).Some? &&
      forall j :: 0 <= j < |pre| && Shown(pre[j]) ==>
        var k := CountShown(pre[..j]);
        k < |Collect(pre).value| && Collect(pre).value[k] == MakeProgram(pre[j].0, pre[j].1.fields, k)
    ensures var k := CountShown(items[..i]);
      k < |Collect(items).value| && Collect(items).value[k] == MakeProgram(items[i].0, items[i].1.fields, k)
  {
    var n := |items|;
    var pre := items[..n - 1];
    var ps := Collect(pre).value;
    CollectStep(items);
    if i < n - 1 {
      assert items[..i] == pre[..i] && items[i] == pre[i];
      assert Collect(items).value[..|ps|] == ps;
    } else {
      assert items[..i] == pre;
      CollectLength(pre);
    }
  }

  /** Every playlist entry comes from a shown entry; `_config` never appears. */
  lemma {:induction false} CollectFromShown(items: seq<Entry>)
    requires Collect(items).Some?
    ensures forall p :: p in Collect(items).value ==>
      p.name != CONFIG_KEY && exists i :: 0 <= i < |items| && Shown(items[i]) && items[i].0 == p.name
    decreases |items|
  {
    if items != [] {
      var pre := items[..|items| - 1];
      CollectFromShown(pre);
      assert forall i :: 0 <= i < |pre| ==> pre[i] == items[i];
    }
  }

  // ---------------------------------------------------------------------
  // sorted(enabled_programs, key=lambda x: x['order'])

  /** Python compares these orders as numbers (a bool as 0 or 1). */
  predicate NumericOrder(p: Program) {
    p.order.JNum? || p.order.JBool?
  }

  function OrderKey(p: Program): (k: int) {
    match p.order
    case JNum(n) => n
    case JBool(b) => if b then 1 else 0
    case _ => 0
  }

  /**
   * Whether sorting finishes: with two or more entries every key is
   * compared with another, and a non-numeric order raises TypeError.
   */
  predicate OrdersComparable(ps: seq<Program>) {
    |ps| <= 1 || forall p :: p in ps ==> NumericOrder(p)
  }

  /** Stable insertion: `p` goes before the first entry whose order is not below its own. */
  function InsertByOrder(p: Program, s: seq<Program>): (r: seq<Program>)
    decreases |s|
  {
    if s == [] || OrderKey(p) <= OrderKey(s[0]) then [p] + s
    else [s[0]] + InsertByOrder(p, s[1..])
  }

  function SortByOrder(s: seq<Program>): (r: seq<Program>)
    decreases |s|
  {
    if s == [] then [] else InsertByOrder(s[0], SortByOrder(s[1..]))
  }

  predicate SortedByOrder(s: seq<Program>) {
    forall i, j :: 0 <= i < j < |s| ==> OrderKey(s[i]) <= OrderKey(s[j])
  }

  /** The entries of `s` whose order is `v`, in the order of `s`. */
  function WithOrder(s: seq<Program>, v: int): (r: seq<Program>)
    decreases |s|
  {
    if s == [] then []
    else (if OrderKey(s[0]) == v then [s[0]] else []) + WithOrder(s[1..], v)
  }

  /** The slot names of a playlist, in playlist order. */
  function Slots(ps: seq<Program>): (r: seq<string>)
    ensures |r| == |ps|
    decreases |ps|
  {
    if ps == [] then [] else [ps[0].slot] + Slots(ps[1..])
  }

  lemma {:induction false} SlotsAt(ps: seq<Program>, i: nat)
    requires i < |ps|
    ensures Slots(ps)[i] == ps[i].slot
    decreases i
  {
    if i > 0 {
      SlotsAt(ps[1..], i - 1);
    }
  }

  /** `slot0.gif`, ..., `slot{k-1}.gif`. */
  function FirstSlots(k: nat): (r: seq<string>) {
    seq(k, i requires 0 <= i < k => SlotFileName(i))
  }

  lemma {:induction false} InsertByOrderPermutes(p: Program, s: seq<Program>)
    ensures multiset(InsertByOrder(p, s)) == multiset(s) + multiset{p}
    decreases |s|
  {
    if s != [] && OrderKey(p) > OrderKey(s[0]) {
      InsertByOrderPermutes(p, s[1..]);
      assert s == [s[0]] + s[1..];
    }
  }

  lemma {:induction false} InsertByOrderKeepsSlots(p: Program, s: seq<Program>)
    ensures multiset(Slots(InsertByOrder(p, s))) == multiset(Slots(s)) + multiset{p.slot}
    decreases |s|
  {
    if s != [] && OrderKey(p) > OrderKey(s[0]) {
      InsertByOrderKeepsSlots(p, s[1..]);
      assert ([s[0]] + InsertByOrder(p, s[1..]))[1..] == InsertByOrder(p, s[1..]);
    } else {
      assert ([p] + s)[1..] == s;
    }
  }

  lemma InsertByOrderHead(p: Program, s: seq<Program>)
    ensures |InsertByOrder(p, s)| == |s| + 1
    ensures InsertByOrder(p, s)[0] == p || (s != [] && InsertByOrder(p, s)[0] == s[0])
  {
    if s != [] && OrderKey(p) > OrderKey(s[0]) {
      InsertByOrderHead(p, s[1..]);
    }
  }

  lemma {:induction false} InsertByOrderSorted(p: Program, s: seq<Program>)
    requires SortedByOrder(s)
    ensures SortedByOrder(InsertByOrder(p, s))
    decreases |s|
  {
    if s != [] && OrderKey(p) > OrderKey(s[0]) {
      var t := InsertByOrder(p, s[1..]);
      InsertByOrderSorted(p, s[1..]);
      InsertByOrderHead(p, s[1..]);
      assert OrderKey(s[0]) <= OrderKey(t[0]);
      var r := [s[0]] + t;
      assert InsertByOrder(p, s) == r;
      forall i, j | 0 <= i < j < |r|
        ensures OrderKey(r[i]) <= OrderKey(r[j])
      {
        if i == 0 {
          assert r[j] == t[j - 1];
          assert OrderKey(t[0]) <= OrderKey(t[j - 1]);
        } else {
          assert r[i] == t[i - 1] && r[j] == t[j - 1];
        }
      }
    }
  }

  lemma WithOrderCons(x: Program, t: seq<Program>, v: int)
    ensures WithOrder([x] + t, v) == (if OrderKey(x) == v then [x] else []) + WithOrder(t, v)
  {
    assert ([x] + t)[0] == x;
    assert ([x] + t)[1..] == t;
  }

  lemma {:induction false} InsertByOrderStable(p: Program, s: seq<Program>, v: int)
    ensures WithOrder(InsertByOrder(p, s), v) == (if OrderKey(p) == v then [p] else []) + WithOrder(s, v)
    decreases |s|
  {
    if s != [] && OrderKey(p) > OrderKey(s[0]) {
      var t := InsertByOrder(p, s[1..]);
      InsertByOrderStable(p, s[1..], v);
      assert InsertByOrder(p, s) == [s[0]] + t;
      WithOrderCons(s[0], t, v);
      assert s == [s[0]] + s[1..];
      WithOrderCons(s[0], s[1..], v);
      if OrderKey(p) == v {
        assert OrderKey(s[0]) != v;
      }
    } else {
      WithOrderCons(p, s, v);
    }
  }

  /** `sorted` by order: the result is ordered by `order`. */
  lemma {:induction false} SortByOrderSorted(s: seq<Program>)
    ensures SortedByOrder(SortByOrder(s))
    decreases |s|
  {
    if s != [] {
      SortByOrderSorted(s[1..]);
      InsertByOrderSorted(s[0], SortByOrder(s[1..]));
    }
  }

  /** ... is a permutation of the input ... */
  lemma {:induction false} SortByOrderPermutes(s: seq<Program>)
    ensures multiset(SortByOrder(s)) == multiset(s)
    decreases |s|
  {
    if s != [] {
      SortByOrderPermutes(s[1..]);
      InsertByOrderPermutes(s[0], SortByOrder(s[1..]));
      assert s == [s[0]] + s[1..];
    }
  }

  /** ... and so keeps the multiset of slots ... */
  lemma {:induction false} SortByOrderKeepsSlots(s: seq<Program>)
    ensures multiset(Slots(SortByOrder(s))) == multiset(Slots(s))
    decreases |s|
  {
    if s != [] {
      SortByOrderKeepsSlots(s[1..]);
      InsertByOrderKeepsSlots(s[0], SortByOrder(s[1..]));
    }
  }

  /** ... and is stable: the entries sharing an order keep their relative order. */
  lemma {:induction false} SortByOrderStable(s: seq<Program>, v: int)
    ensures WithOrder(SortByOrder(s), v) == WithOrder(s, v)
    decreases |s|
  {
    if s != [] {
      SortByOrderStable(s[1..], v);
      InsertByOrderStable(s[0], SortByOrder(s[1..]), v);
    }
  }

  /** The entries sharing order v are exactly the entries with that order. */
  lemma {:induction false} WithOrderMembers(s: seq<Program>, v: int, p: Program)
    ensures p in WithOrder(s, v) <==> p in s && OrderKey(p) == v
    decreases |s|
  {
    if s != [] {
      WithOrderMembers(s[1..], v, p);
      assert s == [s[0]] + s[1..];
    }
  }

  /**
   * Sorted and stable pin the result down: two arrangements ordered by
   * `order` that list each order's entries alike are the same sequence.
   */
  lemma {:induction false} SortedStableUnique(a: seq<Program>, b: seq<Program>)
    requires SortedByOrder(a) && SortedByOrder(b)
    requires forall v :: WithOrder(a, v) == WithOrder(b, v)
    ensures a == b
    decreases |a| + |b|
  {
    if a == [] && b != [] {
      WithOrderMembers(b, OrderKey(b[0]), b[0]);
      assert false;
    } else if a != [] && b == [] {
      WithOrderMembers(a, OrderKey(a[0]), a[0]);
      assert false;
    } else if a != [] {
      var x, y := a[0], b[0];
      var kx, ky := OrderKey(x), OrderKey(y);
      if kx < ky {
        WithOrderMembers(a, kx, x);
        WithOrderMembers(b, kx, x);
        assert false;
      } else if ky < kx {
        WithOrderMembers(b, ky, y);
        WithOrderMembers(a, ky, y);
        assert false;
      } else {
        assert a == [x] + a[1..] && b == [y] + b[1..];
        forall v
          ensures WithOrder(a[1..], v) == WithOrder(b[1..], v)
        {
          WithOrderCons(x, a[1..], v);
          WithOrderCons(y, b[1..], v);
          assert WithOrder(a, v) == WithOrder(b, v);
          assert WithOrder(a, v) == (if kx == v then [x] else []) + WithOrder(a[1..], v);
          assert WithOrder(b, v) == (if ky == v then [y] else []) + WithOrder(b[1..], v);
          if v == kx {
            assert ([x] + WithOrder(a[1..], v))[1..] == WithOrder(a[1..], v);
            assert ([y] + WithOrder(b[1..], v))[1..] == WithOrder(b[1..], v);
          } else {
            assert [] + WithOrder(a[1..], v) == WithOrder(a[1..], v);
            assert [] + WithOrder(b[1..], v) == WithOrder(b[1..], v);
          }
        }
        WithOrderCons(x, a[1..], kx);
        WithOrderCons(y, b[1..], kx);
        assert WithOrder(a, kx)[0] == x && WithOrder(b, kx)[0] == y;
        SortedStableUnique(a[1..], b[1..]);
      }
    }
  }

  /** So `SortByOrder(s)` is the only sorted, stable arrangement of `s`, the one Python's `sorted` returns. */
  lemma SortByOrderUnique(s: seq<Program>, r: seq<Program>)
    requires SortedByOrder(r) && forall v :: WithOrder(r, v) == WithOrder(s, v)
    ensures r == SortByOrder(s)
  {
    SortByOrderSorted(s);
    forall v
      ensures WithOrder(r, v) == WithOrder(SortByOrder(s), v)
    {
      SortByOrderStable(s, v);
    }
    SortedStableUnique(r, SortByOrder(s));
  }

  // ---------------------------------------------------------------------
  // load_program_metadata

  /**
   * `metadata.get('_config', {}).get('render_server_url', ...)`, or None
   * when `_config` is present but not a dict.
   */
  function ServerUrl(items: seq<Entry>): (r: Option<Json>)
    ensures Lookup(items, CONFIG_KEY).None? ==> r == Some(JStr(DEFAULT_SERVER_URL))
    ensures r.None? <==> Lookup(items, CONFIG_KEY).Some? && !Lookup(items, CONFIG_KEY).value.JObj?
    ensures Lookup(items, CONFIG_KEY).Some? && Lookup(items, CONFIG_KEY).value.JObj? ==>
      var config := Lookup(items, CONFIG_KEY).value.fields;
      && (Lookup(config, "render_server_url").Some? ==> r == Lookup(config, "render_server_url"))
      && (Lookup(config, "render_server_url").None? ==> r == Some(JStr(DEFAULT_SERVER_URL)))
  {
    match Lookup(items, CONFIG_KEY)
    case None => Some(JStr(DEFAULT_SERVER_URL))
    case Some(JObj(config)) => Some(GetOr(config, "render_server_url", JStr(DEFAULT_SERVER_URL)))
    case Some(_) => None
  }

  /**
   * What `load_program_metadata` returns when nothing raises, or None when
   * something does. `file` is the decoded metadata file, None when opening
   * or parsing it failed.
   */
  function Loaded(file: Option<Json>): (r: Option<(Json, seq<Program>)>) {
    if file.None? || !file.value.JObj? then None
    else
      var items := file.value.fields;
      match (ServerUrl(items), Collect(items))
      case (Some(url), Some(enabled)) =>
        if OrdersComparable(enabled) then Some((url, SortByOrder(enabled))) else None
      case _ => None
  }

  /** `load_program_metadata(metadata_path)`; any failure gives the default URL and an empty list. */
  method LoadProgramMetadata(file: Option<Json>) returns (serverUrl: Json, programs: seq<Program>)
    ensures Loaded(file).Some? ==> (serverUrl, programs) == Loaded(file).value
    ensures Loaded(file).None? ==> serverUrl == JStr(DEFAULT_SERVER_URL) && programs == []
  {
    serverUrl, programs := JStr(DEFAULT_SERVER_URL), [];
    if file.None? || !file.value.JObj? {
      return;
    }
    var items := file.value.fields;
    var url := ServerUrl(items);
    if url.None? {
      return;
    }
    var enabledPrograms: seq<Program> := [];
    for i := 0 to |items|
      invariant Collect(items[..i]) == Some(enabledPrograms)
    {
      assert items[..i + 1][..i] == items[..i];
      var (programName, config) := items[i];
      if programName == CONFIG_KEY {
        continue;
      }
      if !config.JObj? {
        CollectFailureSticks(items, i + 1);
        return;
      }
      if IsEnabled(config.fields) {
        var slotNumber := |enabledPrograms|;
        enabledPrograms := enabledPrograms + [MakeProgram(programName, config.fields, slotNumber)];
      }
    }
    assert items[..|items|] == items;
    if !OrdersComparable(enabledPrograms) {
      return;
    }
    serverUrl, programs := url.value, SortByOrder(enabledPrograms);
  }

  /**
   * Everything a successful `load_program_metadata` promises about the
   * playlist `SortByOrder(enabled)` built from `items`: `_config` is never
   * listed; it is a permutation of the enabled entries in metadata order,
   * one per shown entry; it is sorted by order, stably; and it uses the
   * slots `slot0.gif` ... `slot{k-1}.gif`, one each.
   */
  lemma Playlist(items: seq<Entry>)
    requires Collect(items).Some?
    ensures var enabled := Collect(items).value;
      var programs := SortByOrder(enabled);
      && (forall p :: p in programs ==> p.name != CONFIG_KEY)
      && multiset(programs) == multiset(enabled)
      && |programs| == CountShown(items)
      && SortedByOrder(programs)
      && (forall v :: WithOrder(programs, v) == WithOrder(enabled, v))
      && multiset(Slots(programs)) == multiset(FirstSlots(|programs|))
  {
    var enabled := Collect(items).value;
    var programs := SortByOrder(enabled);
    SortByOrderSorted(enabled);
    SortByOrderPermutes(enabled);
    SortByOrderKeepsSlots(enabled);
    forall v
      ensures WithOrder(programs, v) == WithOrder(enabled, v)
    {
      SortByOrderStable(enabled, v);
    }
    CollectSlots(items);
    CollectLength(items);
    CollectFromShown(items);
    assert |programs| == |multiset(programs)| == |enabled|;
    forall k | 0 <= k < |enabled|
      ensures Slots(enabled)[k] == FirstSlots(|enabled|)[k]
    {
      SlotsAt(enabled, k);
    }
    assert Slots(enabled) == FirstSlots(|enabled|);
    forall p | p in programs
      ensures p.name != CONFIG_KEY
    {
      assert p in multiset(enabled);
    }
  }

  /** A successful load returns the configured URL and exactly that playlist. */
  lemma LoadedPlaylist(file: Option<Json>)
    requires Loaded(file).Some?
    ensures file.Some? && file.value.JObj? && Collect(file.value.fields).Some?
    ensures Loaded(file).value == (ServerUrl(file.value.fields).value, SortByOrder(Collect(file.value.fields).value))
  {
  }

  /** The slot names `slot0.gif` ... `slot{k-1}.gif` are pairwise distinct. */
  lemma FirstSlotsDistinct(k: nat)
    ensures forall i, j :: 0 <= i < j < k ==> FirstSlots(k)[i] != FirstSlots(k)[j]
  {
    forall i, j | 0 <= i < j < k
      ensures FirstSlots(k)[i] != FirstSlots(k)[j]
    {
      SlotFileNameInjective(i, j);
    }
  }

  // ---------------------------------------------------------------------
  // display_gif, "loops" mode

  /**
   * `duration_unit == "loops"`: only the string `"loops"` selects the loops
   * branch; every other value, the default `'seconds'` among them, takes the
   * seconds branch.
   */
  predicate LoopsMode(p: Program) {
    p.durationUnit == JStr("loops")
  }

  /** A program plays in loops exactly when its record's `durationUnit` is the string `"loops"`. */
  lemma LoopsModeOfRecord(name: string, record: seq<(string, Json)>, slot: nat)
    ensures LoopsMode(MakeProgram(name, record, slot)) <==> Lookup(record, "durationUnit") == Some(JStr("loops"))
  {
  }

  /** `range(int(duration))` has this many iterations; 0 where `int` raises (and is caught). */
  function LoopCount(duration: Json): (k: nat) {
    match PyInt(duration)
    case None => 0
    case Some(k) => if k < 0 then 0 else k
  }

  /** `range(n)` */
  function Frames(n: nat): (r: seq<nat>)
    ensures |r| == n && forall i :: 0 <= i < n ==> r[i] == i
  {
    seq(n, i requires 0 <= i < n => i)
  }

  /** The frame indices `count` complete loops of an `n`-frame GIF show. */
  function Loops(count: nat, n: nat): (r: seq<nat>)
    decreases count
  {
    if count == 0 then [] else Loops(count - 1, n) + Frames(n)
  }

  lemma MulStrictBound(r: nat, f: nat, count: nat, n: nat)
    requires r < count && f < n
    ensures r * n + f < count * n
  {
    assert r * n + f < (r + 1) * n;
    assert (r + 1) * n <= count * n;
  }

  /** Loop r (counting from 0) shows frame f at position r * n + f: frames 0..n-1, `count` times over. */
  lemma {:induction false} LoopsAt(count: nat, n: nat, r: nat, f: nat)
    requires r < count && f < n
    ensures |Loops(count, n)| == count * n
    ensures r * n + f < count * n && Loops(count, n)[r * n + f] == f
    decreases count
  {
    LoopsLength(count, n);
    MulStrictBound(r, f, count, n);
    if r < count - 1 {
      LoopsAt(count - 1, n, r, f);
    } else {
      LoopsLength(count - 1, n);
      assert r * n == (count - 1) * n;
    }
  }

  lemma {:induction false} LoopsLength(count: nat, n: nat)
    ensures |Loops(count, n)| == count * n
    decreases count
  {
    if count > 0 {
      LoopsLength(count - 1, n);
      assert (count - 1) * n + n == count * n;
    }
  }

  /** The frames the "loops" branch of `display_gif` shows, in order, for a GIF with `nFrames` frames. */
  method PlayLoops(duration: Json, nFrames: nat) returns (shown: seq<nat>)
    ensures shown == Loops(LoopCount(duration), nFrames)
  {
    shown := [];
    var times := PyInt(duration);
    if times.None? {
      return;
    }
    var count: nat := if times.value < 0 then 0 else times.value;
    for r := 0 to count
      invariant shown == Loops(r, nFrames)
    {
      for frame := 0 to nFrames
        invariant shown == Loops(r, nFrames) + Frames(frame)
      {
        assert Frames(frame + 1) == Frames(frame) + [frame];
        shown := shown + [frame];
      }
    }
  }

  // ---------------------------------------------------------------------
  // main

  /** `f"{server_url}/gifs/{program['slot']}"` */
  function GifUrl(serverUrl: Json, slot: string): (s: string) {
    PyStr(serverUrl) + "/gifs/" + slot
  }

  /** Distinct slots are fetched from distinct URLs. */
  lemma GifUrlInjective(serverUrl: Json, a: string, b: string)
    ensures GifUrl(serverUrl, a) == GifUrl(serverUrl, b) ==> a == b
  {
    var prefix := PyStr(serverUrl) + "/gifs/";
    assert GifUrl(serverUrl, a)[|prefix|..] == a;
    assert GifUrl(serverUrl, b)[|prefix|..] == b;
  }
}
