/** One tick of `runScheduledImprovements` from api/bot.js: read every
    row, and run an improvement pass on each row whose whole-day age is a
    milestone. The read result and the clock readings (one instant per
    row, one timestamp per file of each pass) are parameters; the store's
    verdict on each write is the `accepts` predicate. */
module Scheduler {
  import opened Wrappers
  import opened Moderation
  import opened Records
  import opened Improvement

  /** `1000 * 60 * 60 * 24`. */
  const DayMs: int := 1000 * 60 * 60 * 24

  const Milestones: seq<int> := [1, 3, 7, 30, 90, 365]

  /** `Math.floor((now - createdAt) / DayMs)`: the whole days elapsed,
      rounded down (also for a creation instant in the future). */
  function AgeDays(now: int, createdAt: int): (days: int)
    ensures days * DayMs <= now - createdAt < (days + 1) * DayMs
  {
    (now - createdAt) / DayMs
  }

  predicate IsDue(server: Site, now: int) {
    AgeDays(now, server.createdAt) in Milestones
  }

  /** The clock readings one tick takes, by position of the row in the
      fetch: `now(k)` is the `new Date()` read before row k's age test,
      and `stamps(k)` the per-file readings of row k's improvement pass. */
  datatype Clock = Clock(now: nat -> int, stamps: nat -> Stamps)

  /** The positions, from `k` on, of the rows a tick selects, in fetch order. */
  function DueServers(servers: seq<Site>, now: nat -> int, k: nat): (due: seq<nat>)
    ensures forall j :: j in due <==> k <= j < |servers| && IsDue(servers[j], now(j))
    ensures forall a :: 0 <= a < |due| ==> k <= due[a] < |servers|
    ensures forall a, b :: 0 <= a < b < |due| ==> due[a] < due[b]
    decreases |servers| - k
  {
    if k >= |servers| then []
    else (if IsDue(servers[k], now(k)) then [k] else []) + DueServers(servers, now, k + 1)
  }

  /** The loop over the fetched rows from position `k` on: each due row
      gets an improvement pass against the store as the previous passes
      left it. A pass only rewrites `files`, only of rows sharing a due
      row's hash, and only with content the filter accepts. */
  function ImproveAll(store: Store, servers: seq<Site>, clock: Clock, accepts: Update -> bool, k: nat): (store': Store)
    ensures |store'| == |store|
    ensures forall i :: 0 <= i < |store| ==> store'[i].(files := store[i].files) == store[i]
    ensures forall i :: 0 <= i < |store| && store'[i] != store[i] ==>
              !ModerateContent(store'[i].files)
              && exists j :: k <= j < |servers| && IsDue(servers[j], clock.now(j)) && servers[j].hash == store[i].hash
    decreases |servers| - k
  {
    if k >= |servers| then store
    else
      var s := servers[k];
      var mid := if IsDue(s, clock.now(k)) then ImproveStep(store, s, clock.stamps(k), accepts) else store;
      var rest := ImproveAll(mid, servers, clock, accepts, k + 1);
      assert forall i :: 0 <= i < |store| && rest[i] != store[i] ==>
               (mid[i] != store[i] && rest[i] == mid[i] && IsDue(s, clock.now(k)) && s.hash == store[i].hash)
               || (rest[i] != mid[i] && mid[i].hash == store[i].hash);
      rest
  }

  /** `runScheduledImprovements()`: a read error or a `null` result does
      no work; otherwise the fetched rows are swept in order. */
  function RunScheduledImprovements(store: Store, read: Fetch<seq<Site>>, clock: Clock,
                                    accepts: Update -> bool): (store': Store)
    ensures read.FetchError? || read == Fetched(None) ==> store' == store
    ensures |store'| == |store|
    ensures forall i :: 0 <= i < |store| ==> store'[i].(files := store[i].files) == store[i]
    ensures forall i :: 0 <= i < |store| && store'[i] != store[i] ==>
              read.Fetched? && read.data.Some? && !ModerateContent(store'[i].files)
              && var servers := read.data.value;
              exists j :: 0 <= j < |servers| && IsDue(servers[j], clock.now(j)) && servers[j].hash == store[i].hash
  {
    match read
    case FetchError(_) => store
    case Fetched(None) => store
    case Fetched(Some(servers)) => ImproveAll(store, servers, clock, accepts, 0)
  }

  /** No two fetched rows share a hash. */
  predicate DistinctHashes(servers: seq<Site>) {
    forall a, b :: 0 <= a < b < |servers| ==> servers[a].hash != servers[b].hash
  }

  /** The update row `j`'s pass would issue. */
  function PassUpdate(servers: seq<Site>, clock: Clock, j: nat): Update
    requires j < |servers|
  {
    Update(servers[j].hash, AppendMarker(servers[j].files, clock.stamps(j)))
  }

  /** When the fetched hashes are distinct, a due row whose improved files
      are clean and whose write the store accepts ends the sweep with the
      improved files on every stored row carrying its hash. */
  lemma {:induction false} SweepImprovesDueRow(store: Store, servers: seq<Site>, clock: Clock,
                                               accepts: Update -> bool, k: nat, j: nat)
    requires DistinctHashes(servers)
    requires k <= j < |servers| && IsDue(servers[j], clock.now(j))
    requires !ModerateContent(PassUpdate(servers, clock, j).files) && accepts(PassUpdate(servers, clock, j))
    ensures forall i :: 0 <= i < |store| && store[i].hash == servers[j].hash ==>
              ImproveAll(store, servers, clock, accepts, k)[i].files == PassUpdate(servers, clock, j).files
    decreases |servers| - k
  {
    var s := servers[k];
    var mid := if IsDue(s, clock.now(k)) then ImproveStep(store, s, clock.stamps(k), accepts) else store;
    var rest := ImproveAll(mid, servers, clock, accepts, k + 1);
    assert ImproveAll(store, servers, clock, accepts, k) == rest;
    if k == j {
      LaterPassesKeep(mid, servers, clock, accepts, k + 1, servers[j].hash);
    } else {
      SweepImprovesDueRow(mid, servers, clock, accepts, k + 1, j);
    }
  }

  /** Passes over rows whose hashes all differ from `h` leave the rows
      with hash `h` as they were. */
  lemma LaterPassesKeep(store: Store, servers: seq<Site>, clock: Clock, accepts: Update -> bool, k: nat, h: string)
    requires forall m :: k <= m < |servers| ==> servers[m].hash != h
    ensures forall i :: 0 <= i < |store| && store[i].hash == h ==> ImproveAll(store, servers, clock, accepts, k)[i] == store[i]
  {
  }

  /** A tick whose fetch succeeds improves every due row as the sweep does. */
  lemma TickImprovesDueRow(store: Store, servers: seq<Site>, clock: Clock, accepts: Update -> bool, j: nat)
    requires DistinctHashes(servers)
    requires j < |servers| && IsDue(servers[j], clock.now(j))
    requires !ModerateContent(PassUpdate(servers, clock, j).files) && accepts(PassUpdate(servers, clock, j))
    ensures forall i :: 0 <= i < |store| && store[i].hash == servers[j].hash ==>
              RunScheduledImprovements(store, Fetched(Some(servers)), clock, accepts)[i].files
              == PassUpdate(servers, clock, j).files
  {
    SweepImprovesDueRow(store, servers, clock, accepts, 0, j);
  }

  /** A row created exactly `n` whole days before `now` (give or take less
      than a day later) has age `n`, so it is selected iff `n` is a
      milestone; the same row stays selected on every tick of that day. */
  lemma SelectedOnMilestoneDays(server: Site, now: int, n: int, offset: int)
    requires 0 <= offset < DayMs
    requires now == server.createdAt + n * DayMs + offset
    ensures AgeDays(now, server.createdAt) == n
    ensures IsDue(server, now) <==> n in Milestones
  {
  }

  /** The sweep restricted to the listed positions. */
  function ImproveAt(store: Store, servers: seq<Site>, clock: Clock, accepts: Update -> bool, positions: seq<nat>): Store
    requires forall a :: 0 <= a < |positions| ==> positions[a] < |servers|
    decreases |positions|
  {
    if positions == [] then store
    else
      var k := positions[0];
      ImproveAt(ImproveStep(store, servers[k], clock.stamps(k), accepts), servers, clock, accepts, positions[1..])
  }

  /** Sweeping every fetched row is the same as sweeping only the selected
      ones: rows off the milestone days are passed over. */
  lemma {:induction false} SweepTouchesOnlyDue(store: Store, servers: seq<Site>, clock: Clock,
                                               accepts: Update -> bool, k: nat)
    ensures ImproveAll(store, servers, clock, accepts, k)
            == ImproveAt(store, servers, clock, accepts, DueServers(servers, clock.now, k))
    decreases |servers| - k
  {
    if k < |servers| {
      var s := servers[k];
      var rest := DueServers(servers, clock.now, k + 1);
      if IsDue(s, clock.now(k)) {
        var mid := ImproveStep(store, s, clock.stamps(k), accepts);
        SweepTouchesOnlyDue(mid, servers, clock, accepts, k + 1);
        assert DueServers(servers, clock.now, k) == [k] + rest;
        assert ([k] + rest)[0] == k && ([k] + rest)[1..] == rest;
      } else {
        SweepTouchesOnlyDue(store, servers, clock, accepts, k + 1);
        assert DueServers(servers, clock.now, k) == rest;
      }
    }
  }

  /** A row created three days ago is selected; one created four days ago is not. */
  lemma ThreeDaysSelectedFourDaysNot(server: Site, now: int)
    ensures now == server.createdAt + 3 * DayMs ==> IsDue(server, now)
    ensures now == server.createdAt + 4 * DayMs ==> !IsDue(server, now)
  {
  }
}
