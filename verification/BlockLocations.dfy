/** Block locations found by probing workers, and the cached percentage of a file
    (src/block/locations.rs:92-331). Worker selection and the workers' answers are parameters:
    `select` gives the workers that the router picks for a block (`None` if it fails), `reply`
    the answer of the worker at an endpoint (`None` if it cannot be reached or fails). Maps and
    sets are walked in an arbitrary order. */
module BlockLocations {
  import opened Types
  import opened Percentage
  import BlockIds

  type Endpoint = string

  // ----- Endpoints -----

  function Digits(n: nat): string {
    (if n < 10 then "" else Digits(n / 10)) + ["0123456789"[n % 10]]
  }

  function IntToString(n: int): string {
    if n < 0 then "-" + Digits(-n) else Digits(n)
  }

  /** `rpc_endpoint`: `host:port`, with the defaults of the source. */
  function RpcEndpoint(addr: WorkerNetAddress): Endpoint {
    addr.host.GetOr("127.0.0.1") + ":" + IntToString(addr.rpcPort.GetOr(9203))
  }

  predicate IsAt(w: WorkerInfo, e: Endpoint) {
    w.address.Some? && RpcEndpoint(w.address.value) == e
  }

  function LocationOf(w: WorkerInfo): BlockLocation {
    BlockLocation(w.id, w.address)
  }

  /** Workers at different endpoints have different locations. */
  lemma LocationsDiffer(w: WorkerInfo, e: Endpoint, w': WorkerInfo, e': Endpoint)
    requires IsAt(w, e) && IsAt(w', e') && e != e'
    ensures LocationOf(w) != LocationOf(w')
  {
  }

  /** The value of a decimal numeral. */
  function Value(s: string): int {
    if s == "" then 0 else 10 * Value(s[..|s| - 1]) + (s[|s| - 1] as int - '0' as int)
  }

  lemma DigitIs(n: nat)
    requires n < 10
    ensures "0123456789"[n] as int - '0' as int == n && '0' <= "0123456789"[n] <= '9'
  {
  }

  lemma {:induction false} DigitsAreDecimal(n: nat)
    ensures Digits(n) != "" && Value(Digits(n)) == n
    ensures forall c :: c in Digits(n) ==> '0' <= c <= '9'
  {
    var d := "0123456789"[n % 10];
    DigitIs(n % 10);
    if n >= 10 {
      DigitsAreDecimal(n / 10);
      assert Digits(n)[..|Digits(n)| - 1] == Digits(n / 10);
    } else {
      assert Digits(n) == [d] && [d][..0] == "";
    }
  }

  function ParseInt(s: string): int {
    if s != "" && s[0] == '-' then -Value(s[1..]) else Value(s)
  }

  lemma ParseSigned(digits: string)
    requires digits != "" && forall c :: c in digits ==> '0' <= c <= '9'
    ensures ParseInt(digits) == Value(digits) && ParseInt("-" + digits) == -Value(digits)
    ensures ':' !in digits && ':' !in "-" + digits
  {
    hide Value;
    assert digits[0] in digits;
    assert ("-" + digits)[1..] == digits;
  }

  lemma PortIsDecimal(n: int)
    ensures ParseInt(IntToString(n)) == n && ':' !in IntToString(n)
  {
    DigitsAreDecimal(if n < 0 then -n else n);
    hide Digits, Value, ParseInt;
    ParseSigned(Digits(if n < 0 then -n else n));
  }

  /** What follows the last colon. */
  function AfterColon(s: string): string {
    if s == "" || s[|s| - 1] == ':' then "" else AfterColon(s[..|s| - 1]) + [s[|s| - 1]]
  }

  lemma {:induction false} AfterColonOf(host: string, port: string)
    requires ':' !in port
    ensures AfterColon(host + ":" + port) == port
    decreases |port|
  {
    var s := host + ":" + port;
    if port != "" {
      var n := |port| - 1;
      AfterColonOf(host, port[..n]);
      assert s[..|s| - 1] == host + ":" + port[..n];
      assert s[|s| - 1] == port[n] && port[n] in port;
      assert port == port[..n] + [port[n]];
    }
  }

  function HostOf(a: WorkerNetAddress): string {
    if a.host.Some? then a.host.value else "127.0.0.1"
  }

  function PortOf(a: WorkerNetAddress): int {
    if a.rpcPort.Some? then a.rpcPort.value else 9203
  }

  /** Two addresses are the same endpoint exactly if host and port are the same, defaults filled in. */
  lemma EndpointsDiffer(a: WorkerNetAddress, b: WorkerNetAddress)
    ensures RpcEndpoint(a) == RpcEndpoint(b) <==> HostOf(a) == HostOf(b) && PortOf(a) == PortOf(b)
  {
    PortIsDecimal(PortOf(a));
    PortIsDecimal(PortOf(b));
    hide IntToString, ParseInt;
    var p, q := IntToString(PortOf(a)), IntToString(PortOf(b));
    AfterColonOf(HostOf(a), p);
    AfterColonOf(HostOf(b), q);
    var s, t := RpcEndpoint(a), RpcEndpoint(b);
    assert s == HostOf(a) + ":" + p && t == HostOf(b) + ":" + q;
    hide AfterColon;
    if s == t {
      assert s[..|s| - |p| - 1] == HostOf(a) && t[..|t| - |q| - 1] == HostOf(b);
    }
  }

  // ----- From blocks to workers, and back -----

  type Selection = int -> Option<seq<WorkerInfo>>

  /** The router picked a worker at `e` for block `b`. */
  ghost predicate Picked(select: Selection, b: int, e: Endpoint) {
    select(b).Some? && exists w :: w in select(b).value && IsAt(w, e)
  }

  /** What to ask whom: an endpoint's worker and the blocks to ask it about. */
  type Tasks = map<Endpoint, (WorkerInfo, set<int>)>

  /** The router picked worker `w` for one of the blocks. */
  ghost predicate PickedFor(select: Selection, w: WorkerInfo, blocks: set<int>) {
    exists b :: b in blocks && select(b).Some? && w in select(b).value
  }

  /** The workers are at their endpoints, each was picked for a block it is asked about, and each
      endpoint is asked about exactly the blocks in `done` that the router picked it for. */
  ghost predicate Inverts(tasks: Tasks, select: Selection, done: seq<int>) {
    && (forall e :: e in tasks ==> IsAt(tasks[e].0, e) && PickedFor(select, tasks[e].0, tasks[e].1))
    && (forall e, b :: e in tasks && b in tasks[e].1 ==> b in done && Picked(select, b, e))
    && (forall e, b :: b in done && Picked(select, b, e) ==> e in tasks && b in tasks[e].1)
  }

  /** Enter one worker of block `b`. */
  method EnterWorker(tasks: Tasks, b: int, w: WorkerInfo) returns (r: Tasks)
    ensures w.address.None? ==> r == tasks
    ensures w.address.Some? ==>
      var e := RpcEndpoint(w.address.value);
      r == tasks[e := if e in tasks then (tasks[e].0, tasks[e].1 + {b}) else (w, {b})]
  {
    r := tasks;
    if w.address.Some? {
      var key := RpcEndpoint(w.address.value);
      if key in tasks {
        r := tasks[key := (tasks[key].0, tasks[key].1 + {b})];
      } else {
        r := tasks[key := (w, {b})];
      }
    }
  }

  lemma StillPicked(select: Selection, w: WorkerInfo, blocks: set<int>, more: set<int>)
    requires PickedFor(select, w, blocks) && forall b :: b in blocks ==> b in more
    ensures PickedFor(select, w, more)
  {
    var b :| b in blocks && select(b).Some? && w in select(b).value;
    assert b in more;
  }

  /** The first `i` workers of block `b` have been entered. */
  ghost predicate Entered(tasks: Tasks, select: Selection, done: seq<int>, b: int, workers: seq<WorkerInfo>, i: nat)
    requires i <= |workers|
  {
    && (forall e :: e in tasks ==> IsAt(tasks[e].0, e) && PickedFor(select, tasks[e].0, tasks[e].1))
    && (forall e, x :: e in tasks && x in tasks[e].1 ==> (x in done || x == b) && Picked(select, x, e))
    && (forall e, x :: x in done && Picked(select, x, e) ==> e in tasks && x in tasks[e].1)
    && (forall j, e :: 0 <= j < i && IsAt(workers[j], e) ==> e in tasks && b in tasks[e].1)
  }

  lemma EnteredNext(tasks: Tasks, select: Selection, done: seq<int>, b: int, workers: seq<WorkerInfo>, i: nat,
                    e: Endpoint, next: Tasks)
    requires i < |workers| && Entered(tasks, select, done, b, workers, i) && select(b) == Some(workers)
    requires IsAt(workers[i], e)
    requires next == tasks[e := if e in tasks then (tasks[e].0, tasks[e].1 + {b}) else (workers[i], {b})]
    ensures Entered(next, select, done, b, workers, i + 1)
  {
    hide RpcEndpoint;
    assert Picked(select, b, e);
    assert forall x :: IsAt(workers[i], x) ==> x == e;
    hide Picked, IsAt;
    if e in tasks {
      StillPicked(select, tasks[e].0, tasks[e].1, next[e].1);
    } else {
      assert b in next[e].1 && workers[i] in select(b).value;
    }
    forall x | x in next ensures IsAt(next[x].0, x) && PickedFor(select, next[x].0, next[x].1) {
    }
    hide PickedFor;
  }

  lemma NotEntered(tasks: Tasks, select: Selection, done: seq<int>, b: int, workers: seq<WorkerInfo>, i: nat)
    requires i < |workers| && Entered(tasks, select, done, b, workers, i) && workers[i].address.None?
    ensures Entered(tasks, select, done, b, workers, i + 1)
  {
    hide RpcEndpoint, Picked, PickedFor;
  }

  /** When all workers of `b` have been entered, `b` is done. */
  lemma AllEntered(tasks: Tasks, select: Selection, done: seq<int>, b: int, workers: seq<WorkerInfo>)
    requires Entered(tasks, select, done, b, workers, |workers|) && select(b) == Some(workers)
    ensures Inverts(tasks, select, done + [b])
  {
    hide RpcEndpoint, IsAt, PickedFor;
    forall e, x | x in done + [b] && Picked(select, x, e) ensures e in tasks && x in tasks[e].1 {
      if x == b {
        var w :| w in select(b).value && IsAt(w, e);
        var j :| 0 <= j < |workers| && workers[j] == w;
        assert IsAt(workers[j], e);
      }
    }
  }

  /** Enter all workers of block `b`. */
  method EnterBlock(tasks: Tasks, ghost select: Selection, ghost done: seq<int>, b: int, workers: seq<WorkerInfo>)
      returns (r: Tasks)
    requires Inverts(tasks, select, done) && select(b) == Some(workers)
    ensures Inverts(r, select, done + [b])
  {
    r := tasks;
    hide RpcEndpoint, Picked, PickedFor;
    for i := 0 to |workers|
      invariant Entered(r, select, done, b, workers, i)
    {
      ghost var before := r;
      r := EnterWorker(r, b, workers[i]);
      hide Entered;
      if workers[i].address.Some? {
        EnteredNext(before, select, done, b, workers, i, RpcEndpoint(workers[i].address.value), r);
      } else {
        NotEntered(before, select, done, b, workers, i);
      }
    }
    AllEntered(r, select, done, b, workers);
  }

  /** The workers picked for each block. A block whose selection failed is skipped. */
  method SelectAll(blockIds: seq<int>, select: Selection) returns (blockToWorkers: map<int, seq<WorkerInfo>>)
    ensures forall b :: b in blockToWorkers <==> b in blockIds && select(b).Some?
    ensures forall b :: b in blockToWorkers ==> select(b) == Some(blockToWorkers[b])
  {
    blockToWorkers := map[];
    for i := 0 to |blockIds|
      invariant forall b :: b in blockToWorkers <==> b in blockIds[..i] && select(b).Some?
      invariant forall b :: b in blockToWorkers ==> select(b) == Some(blockToWorkers[b])
    {
      var workers := select(blockIds[i]);
      assert blockIds[..i + 1] == blockIds[..i] + [blockIds[i]];
      if workers.Some? {
        blockToWorkers := blockToWorkers[blockIds[i] := workers.value];
      }
    }
    assert blockIds[..|blockIds|] == blockIds;
  }

  /** The first half of `fetch_block_locations`: select workers, and turn the selection around. */
  method PlanTasks(blockIds: seq<int>, select: Selection) returns (tasks: Tasks)
    ensures Inverts(tasks, select, blockIds)
  {
    hide Picked, IsAt;
    var blockToWorkers := SelectAll(blockIds, select);
    tasks := map[];
    var todo := blockToWorkers.Keys;
    ghost var done: seq<int> := [];
    while todo != {}
      invariant forall b :: b in blockToWorkers <==> b in todo || b in done
      invariant Inverts(tasks, select, done)
    {
      var b := Any(todo);
      tasks := EnterBlock(tasks, select, done, b, blockToWorkers[b]);
      todo, done := todo - {b}, done + [b];
    }
    InvertsMore(tasks, select, done, blockIds);
  }

  /** Blocks without workers add nothing. */
  lemma InvertsMore(tasks: Tasks, select: Selection, done: seq<int>, all: seq<int>)
    requires Inverts(tasks, select, done)
    requires forall b :: b in done ==> b in all
    requires forall b :: b in all && b !in done ==> select(b).None?
    ensures Inverts(tasks, select, all)
  {
    hide IsAt;
    forall e, b | b in all && Picked(select, b, e) ensures e in tasks && b in tasks[e].1 {
      assert select(b).Some?;
    }
  }

  // ----- Merging the replies -----

  type Locations = map<int, seq<BlockLocation>>
  type Reply = Option<map<int, int>>

  function At(locations: Locations, b: int): seq<BlockLocation> {
    if b in locations then locations[b] else []
  }

  /** The worker says that it holds some of block `b`. */
  predicate Reports(reply: Reply, b: int) {
    reply.Some? && b in reply.value && reply.value[b] > 0
  }

  /** Merge the reply of one worker: every queried block gets an entry, and every block that the
      worker reports gets its location. */
  method MergeReply(locations: Locations, worker: WorkerInfo, queried: set<int>, cached: map<int, int>)
      returns (r: Locations)
    ensures locations.Keys + queried <= r.Keys
    ensures forall b :: At(r, b) == At(locations, b) + if Reports(Some(cached), b) then [LocationOf(worker)] else []
  {
    r := map b | b in locations.Keys + queried :: At(locations, b);
    var todo := cached.Keys;
    while todo != {}
      invariant todo <= cached.Keys && locations.Keys + queried <= r.Keys
      invariant forall b ::
        At(r, b) == At(locations, b) + if Reports(Some(cached), b) && b !in todo then [LocationOf(worker)] else []
    {
      var b := Any(todo);
      todo := todo - {b};
      if cached[b] > 0 {
        r := r[b := At(r, b) + [LocationOf(worker)]];
      }
    }
  }

  /** The locations of the workers in `done` that report block `b`. */
  ghost function Reporters(tasks: Tasks, reply: Endpoint -> Reply, done: set<Endpoint>, b: int): set<BlockLocation> {
    set e | e in done && e in tasks && Reports(reply(e), b) :: LocationOf(tasks[e].0)
  }

  /** The blocks that a worker in `done` was asked about and answered for. */
  ghost predicate Answered(tasks: Tasks, reply: Endpoint -> Reply, done: set<Endpoint>, b: int) {
    exists e :: e in done && e in tasks && reply(e).Some? && b in tasks[e].1
  }

  lemma ReportersGrow(tasks: Tasks, reply: Endpoint -> Reply, done: set<Endpoint>, e: Endpoint, b: int)
    requires e in tasks && e !in done && done <= tasks.Keys && (forall x :: x in tasks ==> IsAt(tasks[x].0, x))
    ensures multiset(Reporters(tasks, reply, done + {e}, b))
         == multiset(Reporters(tasks, reply, done, b))
            + if Reports(reply(e), b) then multiset{LocationOf(tasks[e].0)} else multiset{}
  {
    hide IsAt;
    var r, r' := Reporters(tasks, reply, done, b), Reporters(tasks, reply, done + {e}, b);
    if Reports(reply(e), b) {
      assert r' == r + {LocationOf(tasks[e].0)};
      forall x | x in done ensures LocationOf(tasks[x].0) != LocationOf(tasks[e].0) {
        LocationsDiffer(tasks[x].0, x, tasks[e].0, e);
      }
    } else {
      assert r' == r;
    }
  }

  /** `locations` and `probedOk` account for the replies of the workers in `done`. */
  ghost predicate Merged(tasks: Tasks, reply: Endpoint -> Reply, done: set<Endpoint>,
                         locations: Locations, probedOk: set<int>)
  {
    && (forall b :: b in probedOk <==> Answered(tasks, reply, done, b))
    && (forall b :: multiset(At(locations, b)) == multiset(Reporters(tasks, reply, done, b)))
  }

  lemma MergedStep(tasks: Tasks, reply: Endpoint -> Reply, done: set<Endpoint>, e: Endpoint,
                   locations: Locations, probedOk: set<int>, locations': Locations, probedOk': set<int>)
    requires e in tasks && e !in done && done <= tasks.Keys && (forall x :: x in tasks ==> IsAt(tasks[x].0, x))
    requires Merged(tasks, reply, done, locations, probedOk)
    requires forall b ::
      At(locations', b) == At(locations, b) + if Reports(reply(e), b) then [LocationOf(tasks[e].0)] else []
    requires probedOk' == if reply(e).Some? then probedOk + tasks[e].1 else probedOk
    ensures Merged(tasks, reply, done + {e}, locations', probedOk')
  {
    hide IsAt, Reporters, Reports, At;
    forall b ensures multiset(At(locations', b)) == multiset(Reporters(tasks, reply, done + {e}, b)) {
      ReportersGrow(tasks, reply, done, e, b);
    }
    forall b ensures b in probedOk' <==> Answered(tasks, reply, done + {e}, b) {
      if Answered(tasks, reply, done, b) {
        var x :| x in done && x in tasks && reply(x).Some? && b in tasks[x].1;
        assert x in done + {e};
      }
    }
  }

  /** The second half of `fetch_block_locations`: ask everybody, merge the successful replies. The
      result does not depend on the order: up to order, a block's locations are those of the
      successful workers that report it, each once. */
  method MergeReplies(tasks: Tasks, reply: Endpoint -> Reply) returns (locations: Locations, probedOk: set<int>)
    requires forall e :: e in tasks ==> IsAt(tasks[e].0, e)
    ensures Merged(tasks, reply, tasks.Keys, locations, probedOk)
  {
    hide IsAt, Merged, Reports;
    locations, probedOk := map[], {};
    NothingMerged(tasks, reply);
    var todo := tasks.Keys;
    assert tasks.Keys - todo == {};
    while todo != {}
      invariant todo <= tasks.Keys
      invariant Merged(tasks, reply, tasks.Keys - todo, locations, probedOk)
    {
      var e := Any(todo);
      ghost var done := tasks.Keys - todo;
      ghost var before, okBefore := locations, probedOk;
      var outcome := reply(e);
      if outcome.Some? {
        var (worker, queried) := tasks[e];
        probedOk := probedOk + queried;
        locations := MergeReply(locations, worker, queried, outcome.value);
      } else {
        NotReported(outcome);
      }
      MergedStep(tasks, reply, done, e, before, okBefore, locations, probedOk);
      todo := todo - {e};
      assert tasks.Keys - todo == done + {e};
    }
    assert tasks.Keys - {} == tasks.Keys;
  }

  lemma NothingMerged(tasks: Tasks, reply: Endpoint -> Reply)
    ensures Merged(tasks, reply, {}, map[], {})
  {
    assert forall b :: Reporters(tasks, reply, {}, b) == {};
  }

  lemma NotReported(reply: Reply)
    requires reply.None?
    ensures forall b :: !Reports(reply, b)
  {
  }

  // ----- Applying the result -----

  function BlockIdOf(fbi: FileBlockInfo): Option<int> {
    if fbi.blockInfo.Some? then fbi.blockInfo.value.blockId else None
  }

  function LocationsOf(fbi: FileBlockInfo): seq<BlockLocation> {
    if fbi.blockInfo.Some? then fbi.blockInfo.value.locations else []
  }

  /** A block info with other locations. */
  function Relocated(fbi: FileBlockInfo, locations: seq<BlockLocation>): FileBlockInfo
    requires fbi.blockInfo.Some?
  {
    fbi.(blockInfo := Some(fbi.blockInfo.value.(locations := locations)))
  }

  /** The locations of a probed block are overwritten, if only by none; others are kept. */
  function Applied(fbi: FileBlockInfo, locations: Locations, probedOk: set<int>): FileBlockInfo {
    if BlockIdOf(fbi).Some? && BlockIdOf(fbi).value in probedOk
    then Relocated(fbi, At(locations, BlockIdOf(fbi).value))
    else fbi
  }

  function AppliedAll(infos: seq<FileBlockInfo>, locations: Locations, probedOk: set<int>): (r: seq<FileBlockInfo>)
    ensures |r| == |infos|
    ensures forall i :: 0 <= i < |r| ==> r[i] == Applied(infos[i], locations, probedOk)
  {
    seq(|infos|, i requires 0 <= i < |infos| => Applied(infos[i], locations, probedOk))
  }

  /** The length of all blocks together, located or not. */
  function TotalLength(infos: seq<FileBlockInfo>): nat {
    if infos == [] then 0
    else
      var bi := infos[|infos| - 1].blockInfo;
      TotalLength(infos[..|infos| - 1]) + if bi.Some? then Max(bi.value.length.GetOr(0), 0) else 0
  }

  lemma {:induction false} LocatedAtMostTotal(infos: seq<FileBlockInfo>, locations: Locations, probedOk: set<int>)
    ensures LocatedLength(AppliedAll(infos, locations, probedOk)) <= TotalLength(infos)
  {
    if infos != [] {
      var init := infos[..|infos| - 1];
      LocatedAtMostTotal(init, locations, probedOk);
      var r := AppliedAll(infos, locations, probedOk);
      assert r[..|r| - 1] == AppliedAll(init, locations, probedOk);
    }
  }

  /** `apply_probed_locations`. */
  method ApplyProbed(info: FileInfo, locations: Locations, probedOk: set<int>) returns (r: FileInfo)
    requires LocatedLength(AppliedAll(info.fileBlockInfos, locations, probedOk)) <= I64_MAX
    ensures r == Recomputed(info.(fileBlockInfos := AppliedAll(info.fileBlockInfos, locations, probedOk)))
  {
    var infos := info.fileBlockInfos;
    for i := 0 to |infos|
      invariant |infos| == |info.fileBlockInfos|
      invariant forall j :: 0 <= j < i ==> infos[j] == Applied(info.fileBlockInfos[j], locations, probedOk)
      invariant forall j :: i <= j < |infos| ==> infos[j] == info.fileBlockInfos[j]
    {
      var bi := infos[i].blockInfo;
      if bi.Some? && bi.value.blockId.Some? && bi.value.blockId.value in probedOk {
        var blockId := bi.value.blockId.value;
        infos := infos[i := infos[i].(blockInfo := Some(bi.value.(locations := At(locations, blockId))))];
      }
    }
    assert infos == AppliedAll(info.fileBlockInfos, locations, probedOk);
    r := Recompute(info.(fileBlockInfos := infos));
  }

  // ----- The whole enrichment -----

  /** Some worker that was picked for block `b` answered. */
  ghost predicate Probed(select: Selection, reply: Endpoint -> Reply, b: int) {
    exists e :: Picked(select, b, e) && reply(e).Some?
  }

  /** A picked worker for every endpoint at which the router picked one, for some of the blocks. */
  ghost predicate Chosen(workers: map<Endpoint, WorkerInfo>, select: Selection, blockIds: seq<int>) {
    && (forall e, b :: b in blockIds && Picked(select, b, e) ==> e in workers)
    && (forall e :: e in workers ==> IsAt(workers[e], e) && PickedIn(select, workers[e], blockIds))
  }

  ghost predicate PickedIn(select: Selection, w: WorkerInfo, blockIds: seq<int>) {
    exists b :: b in blockIds && select(b).Some? && w in select(b).value
  }

  /** The locations of the workers that report block `b`. */
  ghost function ReportedBy(workers: map<Endpoint, WorkerInfo>, reply: Endpoint -> Reply, b: int): set<BlockLocation> {
    set e | e in workers && reply(e).Some? && b in reply(e).value && reply(e).value[b] > 0 ::
      BlockLocation(workers[e].id, workers[e].address)
  }

  /** What enrichment makes of one block info: if some worker picked for its block answered, the
      locations are, up to order, those of the picked workers that report the block, one for each
      endpoint; else the master's locations stay. */
  ghost predicate Enriched(before: FileBlockInfo, after: FileBlockInfo, select: Selection, reply: Endpoint -> Reply,
                           workers: map<Endpoint, WorkerInfo>)
  {
    var bi := before.blockInfo;
    if bi.Some? && bi.value.blockId.Some? && bi.value.blockId.value > 0 && Probed(select, reply, bi.value.blockId.value)
    then
      && after.blockInfo.Some?
      && after == before.(blockInfo := Some(bi.value.(locations := after.blockInfo.value.locations)))
      && multiset(after.blockInfo.value.locations) == multiset(ReportedBy(workers, reply, bi.value.blockId.value))
    else after == before
  }

  /** If no endpoint is shared by different workers there is only one choice. */
  lemma ChosenIsUnique(workers: map<Endpoint, WorkerInfo>, workers': map<Endpoint, WorkerInfo>, select: Selection,
                       blockIds: seq<int>)
    requires Chosen(workers, select, blockIds) && Chosen(workers', select, blockIds)
    requires forall w, w', e | PickedIn(select, w, blockIds) && PickedIn(select, w', blockIds) ::
      IsAt(w, e) && IsAt(w', e) ==> w == w'
    ensures workers == workers'
  {
    hide IsAt;
    forall e ensures e in workers <==> e in workers' {
      if e in workers {
        ChosenIsPicked(workers, select, blockIds, e);
      }
      if e in workers' {
        ChosenIsPicked(workers', select, blockIds, e);
      }
    }
  }

  lemma ChosenIsPicked(workers: map<Endpoint, WorkerInfo>, select: Selection, blockIds: seq<int>, e: Endpoint)
    requires Chosen(workers, select, blockIds) && e in workers
    ensures exists b :: b in blockIds && Picked(select, b, e)
  {
    hide IsAt;
    var b :| b in blockIds && select(b).Some? && workers[e] in select(b).value;
    assert Picked(select, b, e);
  }

  /** The workers of the tasks. */
  ghost function WorkersOf(tasks: Tasks): map<Endpoint, WorkerInfo> {
    map e | e in tasks :: tasks[e].0
  }

  lemma WorkersAreChosen(tasks: Tasks, select: Selection, blockIds: seq<int>)
    requires Inverts(tasks, select, blockIds)
    ensures Chosen(WorkersOf(tasks), select, blockIds)
    ensures forall e :: e in tasks ==> IsAt(tasks[e].0, e)
  {
    hide IsAt, Picked;
    forall e | e in tasks ensures PickedIn(select, tasks[e].0, blockIds) {
      var b :| b in tasks[e].1 && select(b).Some? && tasks[e].0 in select(b).value;
      assert b in blockIds;
    }
  }

  lemma ReportersOfTasks(tasks: Tasks, reply: Endpoint -> Reply, b: int)
    ensures Reporters(tasks, reply, tasks.Keys, b) == ReportedBy(WorkersOf(tasks), reply, b)
  {
  }

  /** The info is that of block `b`. */
  predicate IsBlock(fbi: FileBlockInfo, b: int) {
    fbi.blockInfo.Some? && fbi.blockInfo.value.blockId == Some(b)
  }

  /** The usable block ids, in the order of the infos. */
  function UsableIds(infos: seq<FileBlockInfo>): seq<int> {
    if infos == [] then []
    else
      var id := BlockIdOf(infos[|infos| - 1]);
      UsableIds(infos[..|infos| - 1]) + if id.Some? && id.value > 0 then [id.value] else []
  }

  lemma {:induction false} UsableIdsMembers(infos: seq<FileBlockInfo>, b: int)
    ensures b in UsableIds(infos) <==> b > 0 && exists i :: 0 <= i < |infos| && IsBlock(infos[i], b)
  {
    if infos != [] {
      var init := infos[..|infos| - 1];
      UsableIdsMembers(init, b);
      if i :| 0 <= i < |infos| && IsBlock(infos[i], b) {
        if i < |init| {
          assert init[i] == infos[i];
        }
      }
    }
  }

  /** A listed block was answered for exactly if some worker picked for it answered. */
  lemma AnsweredIsProbed(tasks: Tasks, select: Selection, reply: Endpoint -> Reply, blockIds: seq<int>, b: int)
    requires Inverts(tasks, select, blockIds)
    ensures Answered(tasks, reply, tasks.Keys, b) <==> b in blockIds && Probed(select, reply, b)
  {
    hide Picked, IsAt;
    if Answered(tasks, reply, tasks.Keys, b) {
      var e :| e in tasks && reply(e).Some? && b in tasks[e].1;
      assert Picked(select, b, e);
    }
  }

  lemma EnrichedOne(infos: seq<FileBlockInfo>, i: nat, tasks: Tasks, select: Selection, reply: Endpoint -> Reply,
                    locations: Locations, probedOk: set<int>)
    requires i < |infos| && Inverts(tasks, select, UsableIds(infos))
    requires Merged(tasks, reply, tasks.Keys, locations, probedOk)
    ensures Enriched(infos[i], Applied(infos[i], locations, probedOk), select, reply, WorkersOf(tasks))
  {
    hide Inverts, Probed, Reporters, ReportedBy, WorkersOf, Answered;
    var id := BlockIdOf(infos[i]);
    if id.Some? {
      ReportersOfTasks(tasks, reply, id.value);
      AnsweredIsProbed(tasks, select, reply, UsableIds(infos), id.value);
      UsableIdsMembers(infos, id.value);
    }
  }

  lemma NothingEnriched(infos: seq<FileBlockInfo>, select: Selection, reply: Endpoint -> Reply)
    requires UsableIds(infos) == []
    ensures Chosen(map[], select, UsableIds(infos))
    ensures forall i :: 0 <= i < |infos| ==> Enriched(infos[i], infos[i], select, reply, map[])
  {
    forall i | 0 <= i < |infos| ensures Enriched(infos[i], infos[i], select, reply, map[]) {
      if BlockIdOf(infos[i]).Some? {
        UsableIdsMembers(infos, BlockIdOf(infos[i]).value);
      }
    }
  }

  /** `enrich_file_block_locations`: if probing is on and there is a block to probe, every block
      info is enriched and the percentage is that of the new locations. */
  method Enrich(info: FileInfo, checkCount: nat, select: Selection, reply: Endpoint -> Reply)
      returns (r: FileInfo, ghost workers: map<Endpoint, WorkerInfo>)
    requires TotalLength(info.fileBlockInfos) <= I64_MAX
    ensures |r.fileBlockInfos| == |info.fileBlockInfos|
    ensures info.blockIds != [] ==> r.blockIds == info.blockIds
    ensures info.blockIds == [] ==> r.blockIds == BlockIds.IdsFrom(info.fileBlockInfos)
    ensures checkCount == 0 || UsableIds(info.fileBlockInfos) == [] ==> r == info.(blockIds := r.blockIds)
    ensures checkCount > 0 ==>
      && Chosen(workers, select, UsableIds(info.fileBlockInfos))
      && forall i :: 0 <= i < |r.fileBlockInfos| ==>
           Enriched(info.fileBlockInfos[i], r.fileBlockInfos[i], select, reply, workers)
    ensures checkCount > 0 && UsableIds(info.fileBlockInfos) != [] ==>
      r == Recomputed(info.(blockIds := r.blockIds, fileBlockInfos := r.fileBlockInfos))
  {
    hide Merged, Inverts, Enriched, Chosen, IsAt, Applied, WorkersOf;
    var info' := BlockIds.EnsureBlockIds(info);
    var infos := info'.fileBlockInfos;
    if checkCount == 0 {
      return info', map[];
    }
    var blockIds := [];
    for i := 0 to |infos|
      invariant blockIds == UsableIds(infos[..i])
    {
      assert infos[..i + 1][..i] == infos[..i];
      var id := BlockIdOf(infos[i]);
      if id.Some? && id.value > 0 {
        blockIds := blockIds + [id.value];
      }
    }
    assert infos[..|infos|] == infos;
    if blockIds == [] {
      NothingEnriched(infos, select, reply);
      return info', map[];
    }
    var tasks := PlanTasks(blockIds, select);
    WorkersAreChosen(tasks, select, blockIds);
    workers := WorkersOf(tasks);
    var locations, probedOk := MergeReplies(tasks, reply);
    forall i | 0 <= i < |infos|
      ensures Enriched(infos[i], Applied(infos[i], locations, probedOk), select, reply, workers)
    {
      EnrichedOne(infos, i, tasks, select, reply, locations, probedOk);
    }
    LocatedAtMostTotal(infos, locations, probedOk);
    r := ApplyProbed(info', locations, probedOk);
  }
}
