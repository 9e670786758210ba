/** Connection set-up of the hardware-handshake server: the event thread, the establishment thread
    and the data thread share a locked list of connections (xhw-hs-server/files/xhw_hs_server.c).
    Each critical section is one step. */
module Connect {
  import opened Lists

  datatype State = ConnectReq | ReqProc | Established | Ready | CfgDone | Invalid

  function Rank(s: State): nat {
    match s
    case ConnectReq => 0
    case ReqProc => 1
    case Established => 2
    case Ready => 3
    case CfgDone => 4
    case Invalid => 5
  }

  /** A connection, with how often it was accepted, acknowledged, given its buffers, and configured. */
  datatype Entry = Entry(id: nat, state: State, accepts: nat, acks: nat, setups: nat, configs: nat)

  /** The list, the establishment thread's cursor (None is NULL), the two counters, and whether the
      data thread has returned. */
  datatype Server = Server(entries: seq<Entry>, cursor: Option<nat>, connections: nat, configured: nat, returned: bool)

  const WINDOW := 3

  // ----- the event thread

  /** RDMA_CM_EVENT_CONNECT_REQUEST */
  function Connected(s: Server, id: nat): Server {
    s.(entries := s.entries + [Entry(id, ConnectReq, 0, 0, 0, 0)])
  }

  /** The first entry with that id at or after k, or the length. */
  function Find(entries: seq<Entry>, id: nat, k: nat): (r: nat)
    requires k <= |entries|
    ensures k <= r <= |entries| && (r < |entries| ==> entries[r].id == id)
    ensures forall j :: k <= j < r ==> entries[j].id != id
    decreases |entries| - k
  {
    if k == |entries| || entries[k].id == id then k else Find(entries, id, k + 1)
  }

  function AckedEntry(e: Entry): Entry { e.(state := Established, acks := e.acks + 1) }

  /** RDMA_CM_EVENT_ESTABLISHED: whatever state the entry is in. */
  function Acknowledged(s: Server, id: nat): Server {
    var k := Find(s.entries, id, 0);
    if k < |s.entries| then s.(entries := s.entries[k := AckedEntry(s.entries[k])]) else s
  }

  // ----- the establishment thread

  function VisitedEntry(e: Entry): Entry {
    match e.state
    case ConnectReq => e.(state := ReqProc, accepts := e.accepts + 1)
    case Established => e.(state := Ready, setups := e.setups + 1)
    case _ => e
  }

  function Visited(s: Server, k: nat): Server
    requires k < |s.entries|
  {
    var e := s.entries[k];
    s.(entries := s.entries[k := VisitedEntry(e)],
       connections := if e.state.Established? then s.connections + 1 else s.connections)
  }

  /** The inner loop from entry k with i entries of the window used. */
  function Window(s: Server, k: nat, i: nat): Server
    decreases |s.entries| - k
  {
    if k >= |s.entries| then s.(cursor := None)
    else if i >= WINDOW then s.(cursor := Some(k))
    else Window(Visited(s, k), k + 1, i + 1)
  }

  function First(s: Server): nat { if s.cursor.Some? then s.cursor.value else 0 }

  /** One round of est_thread. */
  function EstRound(s: Server): Server { Window(s, First(s), 0) }

  // ----- the data thread

  /** The scan of run_server from entry k; `need` is the number of queue pairs asked for, and the
      exchange with a peer fails after `good` successes. */
  function Scan(s: Server, k: nat, need: nat, good: nat): Server
    decreases |s.entries| - k
  {
    if k >= |s.entries| then s
    else
      var e := s.entries[k];
      if !e.state.Ready? then Scan(s, k + 1, need, good)
      else if good == 0 then s.(returned := true)
      else if s.configured + 1 >= need then Configured(s, k, CfgDone).(returned := true)
      else Scan(Configured(s, k, Invalid), k + 1, need, good - 1)
  }

  function Configured(s: Server, k: nat, state: State): Server
    requires k < |s.entries|
  {
    s.(entries := s.entries[k := s.entries[k].(state := state, configs := s.entries[k].configs + 1)],
       configured := s.configured + 1)
  }

  // ----- what a scan does

  /** Ready entries among those at k .. i-1. */
  function ReadyIn(entries: seq<Entry>, k: nat, i: nat): nat
    requires k <= i <= |entries|
  {
    if k == i then 0 else ReadyIn(entries, k, i - 1) + if entries[i - 1].state.Ready? then 1 else 0
  }

  function Min(a: nat, b: nat): nat { if a < b then a else b }

  /** Queue pairs still wanted: at least one, since the count is looked at only after a success. */
  function Wanted(configured: nat, need: nat): nat { if configured + 1 >= need then 1 else need - configured }

  /** How many the scan from k configures. */
  function Quota(s: Server, k: nat, need: nat, good: nat): nat
    requires k <= |s.entries|
  {
    Min(ReadyIn(s.entries, k, |s.entries|), Min(good, Wanted(s.configured, need)))
  }

  /** r is s after a scan from k: the first Ready entries, as many as the quota, have been configured
      once; the one that brought the count to `need` ends in QP_CFG_DONE, the others in INVALID_STATE;
      the rest is as before; and the thread has returned if and only if the count was reached or a
      Ready entry was met after the last success there was to be. */
  ghost predicate Scanned(s: Server, k: nat, need: nat, good: nat, r: Server)
    requires k <= |s.entries|
  {
    var m, want := Quota(s, k, need, good), Wanted(s.configured, need);
    && |r.entries| == |s.entries| && r.cursor == s.cursor && r.connections == s.connections
    && r.configured == s.configured + m
    && (forall i :: 0 <= i < k ==> r.entries[i] == s.entries[i])
    && (forall i {:trigger r.entries[i]} :: k <= i < |s.entries| ==> ScannedEntry(s.entries, k, i, m, want, r.entries[i]))
    && (r.returned <==> s.returned || m == want || good < ReadyIn(s.entries, k, |s.entries|))
  }

  predicate ScannedEntry(entries: seq<Entry>, k: nat, i: nat, m: nat, want: nat, e: Entry)
    requires k <= i < |entries|
  {
    var was, rank := entries[i], ReadyIn(entries, k, i);
    if was.state.Ready? && rank < m
    then e == was.(state := if rank + 1 == want then CfgDone else Invalid, configs := was.configs + 1)
    else e == was
  }

  lemma {:induction false} ReadyFirst(entries: seq<Entry>, k: nat, i: nat)
    requires k < i <= |entries|
    ensures ReadyIn(entries, k, i) == ReadyIn(entries, k + 1, i) + if entries[k].state.Ready? then 1 else 0
  {
    if k + 1 < i { ReadyFirst(entries, k, i - 1); }
  }

  lemma {:induction false} ReadyUpdated(entries: seq<Entry>, k: nat, i: nat, e: Entry)
    requires k < |entries| && k + 1 <= i <= |entries|
    ensures ReadyIn(entries[k := e], k + 1, i) == ReadyIn(entries, k + 1, i)
  {
    if k + 1 < i { ReadyUpdated(entries, k, i - 1, e); }
  }

  lemma ScannedSkip(s: Server, k: nat, need: nat, good: nat, r: Server)
    requires k < |s.entries| && !s.entries[k].state.Ready? && Scanned(s, k + 1, need, good, r)
    ensures Scanned(s, k, need, good, r)
  {
    forall i | k < i <= |s.entries| ensures ReadyIn(s.entries, k, i) == ReadyIn(s.entries, k + 1, i) { ReadyFirst(s.entries, k, i); }
  }

  lemma ScannedStop(s: Server, k: nat, need: nat, r: Server)
    requires k < |s.entries| && s.entries[k].state.Ready? && r == s.(returned := true)
    ensures Scanned(s, k, need, 0, r)
  {
    ReadyFirst(s.entries, k, |s.entries|);
  }

  lemma ScannedLast(s: Server, k: nat, need: nat, good: nat, r: Server)
    requires k < |s.entries| && s.entries[k].state.Ready? && good > 0 && s.configured + 1 >= need
    requires r == Configured(s, k, CfgDone).(returned := true)
    ensures Scanned(s, k, need, good, r)
  {
    forall i | k < i <= |s.entries| ensures ReadyIn(s.entries, k, i) >= 1 { ReadyFirst(s.entries, k, i); }
  }

  lemma ScannedOn(s: Server, k: nat, need: nat, good: nat, t: Server, r: Server)
    requires k < |s.entries| && s.entries[k].state.Ready? && good > 0 && s.configured + 1 < need
    requires t == Configured(s, k, Invalid) && Scanned(t, k + 1, need, good - 1, r)
    ensures Scanned(s, k, need, good, r)
  {
    forall i | k < i <= |s.entries|
      ensures ReadyIn(s.entries, k, i) == 1 + ReadyIn(t.entries, k + 1, i)
    {
      ReadyFirst(s.entries, k, i);
      ReadyUpdated(s.entries, k, i, t.entries[k]);
    }
  }

  /** The loop of run_server does exactly that. */
  lemma {:induction false} ScanIs(s: Server, k: nat, need: nat, good: nat)
    requires k <= |s.entries|
    ensures Scanned(s, k, need, good, Scan(s, k, need, good))
    decreases |s.entries| - k
  {
    if k < |s.entries| {
      if !s.entries[k].state.Ready? {
        ScanIs(s, k + 1, need, good);
        ScannedSkip(s, k, need, good, Scan(s, k, need, good));
      } else if good == 0 {
        ScannedStop(s, k, need, Scan(s, k, need, good));
      } else if s.configured + 1 >= need {
        ScannedLast(s, k, need, good, Scan(s, k, need, good));
      } else {
        ScanIs(Configured(s, k, Invalid), k + 1, need, good - 1);
        ScannedOn(s, k, need, good, Configured(s, k, Invalid), Scan(s, k, need, good));
      }
    }
  }

  // ----- what every step keeps

  /** Accepted, set up and configured exactly once, each in its own state. */
  predicate EntryOk(e: Entry) {
    && e.accepts == (if Rank(e.state) >= 1 then 1 else 0)
    && (e.acks > 0 <==> Rank(e.state) >= 2)
    && e.setups == (if Rank(e.state) >= 3 then 1 else 0)
    && e.configs == (if Rank(e.state) >= 4 then 1 else 0)
  }

  /** Entries among the first n whose state is at or past `rank`. */
  function CountTo(entries: seq<Entry>, n: nat, rank: nat): nat
    requires n <= |entries|
  {
    if n == 0 then 0
    else CountTo(entries, n - 1, rank) + if Rank(entries[n - 1].state) >= rank then 1 else 0
  }

  function Count(entries: seq<Entry>, rank: nat): nat { CountTo(entries, |entries|, rank) }

  ghost predicate Distinct(entries: seq<Entry>) {
    forall i, j :: 0 <= i < j < |entries| ==> entries[i].id != entries[j].id
  }

  ghost predicate Inv(s: Server) {
    && (forall k :: 0 <= k < |s.entries| ==> EntryOk(s.entries[k]))
    && Distinct(s.entries)
    && s.connections == Count(s.entries, 3) && s.configured == Count(s.entries, 4)
    && (s.cursor.Some? ==> s.cursor.value < |s.entries|)
  }

  /** Entries only move forward. */
  ghost predicate Forward(s: Server, t: Server) {
    && |s.entries| <= |t.entries|
    && forall k :: 0 <= k < |s.entries| ==>
         t.entries[k].id == s.entries[k].id && Rank(s.entries[k].state) <= Rank(t.entries[k].state)
  }

  lemma {:induction false} CountUpdate(entries: seq<Entry>, n: nat, rank: nat, k: nat, e: Entry)
    requires n <= |entries| && k < |entries|
    ensures CountTo(entries[k := e], n, rank) == CountTo(entries, n, rank)
            + (if k < n then (if Rank(e.state) >= rank then 1 else 0) - (if Rank(entries[k].state) >= rank then 1 else 0) else 0)
  {
    if n > 0 { CountUpdate(entries, n - 1, rank, k, e); }
  }

  lemma {:induction false} CountAppend(entries: seq<Entry>, n: nat, rank: nat, e: Entry)
    requires n <= |entries|
    ensures CountTo(entries + [e], n, rank) == CountTo(entries, n, rank)
  {
    if n > 0 { CountAppend(entries, n - 1, rank, e); }
  }

  /** A connect request keeps the invariant if and only if its id is new. */
  lemma ConnectedKeepsInvIff(s: Server, id: nat)
    requires Inv(s)
    ensures Inv(Connected(s, id)) <==> Find(s.entries, id, 0) == |s.entries|
    ensures Forward(s, Connected(s, id))
  {
    var e, k, t := Entry(id, ConnectReq, 0, 0, 0, 0), Find(s.entries, id, 0), Connected(s, id).entries;
    assert k < |s.entries| ==> t[k].id == t[|s.entries|].id;
    CountAppend(s.entries, |s.entries|, 3, e);
    CountAppend(s.entries, |s.entries|, 4, e);
  }

  /** An ESTABLISHED event keeps the invariant if and only if its entry, if there is one, has been
      accepted and not yet been set up. */
  lemma AcknowledgedKeepsInvIff(s: Server, id: nat)
    requires Inv(s)
    ensures var k := Find(s.entries, id, 0);
            Inv(Acknowledged(s, id)) <==> (k < |s.entries| ==> 1 <= Rank(s.entries[k].state) <= 2)
  {
    var k, t := Find(s.entries, id, 0), Acknowledged(s, id);
    if k < |s.entries| {
      var e := AckedEntry(s.entries[k]);
      CountUpdate(s.entries, |s.entries|, 3, k, e);
      CountUpdate(s.entries, |s.entries|, 4, k, e);
      assert t.entries[k] == e;
      assert EntryOk(e) <==> 1 <= Rank(s.entries[k].state) <= 2;
    }
  }

  /** Then it overwrites nothing past ESTABLISHED. */
  lemma AcknowledgedForward(s: Server, id: nat)
    requires Inv(s) && Inv(Acknowledged(s, id))
    ensures Forward(s, Acknowledged(s, id))
  {
    AcknowledgedKeepsInvIff(s, id);
  }

  lemma VisitedKeepsInv(s: Server, k: nat)
    requires Inv(s) && k < |s.entries|
    ensures Inv(Visited(s, k)) && Forward(s, Visited(s, k))
  {
    var e := VisitedEntry(s.entries[k]);
    CountUpdate(s.entries, |s.entries|, 3, k, e);
    CountUpdate(s.entries, |s.entries|, 4, k, e);
  }

  lemma ForwardTwice(s: Server, t: Server, u: Server)
    requires Forward(s, t) && Forward(t, u)
    ensures Forward(s, u)
  {}

  lemma {:induction false} WindowKeepsInv(s: Server, k: nat, i: nat)
    requires Inv(s)
    ensures Inv(Window(s, k, i)) && Forward(s, Window(s, k, i)) && |Window(s, k, i).entries| == |s.entries|
    decreases |s.entries| - k
  {
    if k < |s.entries| && i < WINDOW {
      VisitedKeepsInv(s, k);
      WindowKeepsInv(Visited(s, k), k + 1, i + 1);
      ForwardTwice(s, Visited(s, k), Window(s, k, i));
    }
  }

  lemma ConfiguredKeepsInv(s: Server, k: nat, state: State, t: Server)
    requires Inv(s) && k < |s.entries| && s.entries[k].state.Ready? && Rank(state) >= 4
    requires t == Configured(s, k, state)
    ensures Inv(t) && Forward(s, t)
  {
    var e := t.entries[k];
    CountUpdate(s.entries, |s.entries|, 3, k, e);
    CountUpdate(s.entries, |s.entries|, 4, k, e);
  }

  lemma {:induction false} ScanKeepsInv(s: Server, k: nat, need: nat, good: nat, r: Server)
    requires Inv(s) && r == Scan(s, k, need, good)
    ensures Inv(r) && Forward(s, r) && |r.entries| == |s.entries| && r.cursor == s.cursor
    decreases |s.entries| - k
  {
    if k < |s.entries| {
      if !s.entries[k].state.Ready? {
        ScanKeepsInv(s, k + 1, need, good, r);
      } else if good > 0 {
        var t := Configured(s, k, if s.configured + 1 >= need then CfgDone else Invalid);
        ConfiguredKeepsInv(s, k, t.entries[k].state, t);
        if s.configured + 1 < need {
          ScanKeepsInv(t, k + 1, need, good - 1, r);
          ForwardTwice(s, t, r);
        }
      }
    }
  }

  // ----- whole runs

  datatype Op = Connect(id: nat) | Acknowledge(id: nat) | Round | Pass(need: nat, good: nat)

  /** What the connection manager owes: one connect request per connection, and at most one
      acknowledgement, after rdma_accept was called for it. */
  predicate Allowed(s: Server, op: Op) {
    match op
    case Connect(id) => Find(s.entries, id, 0) == |s.entries|
    case Acknowledge(id) => var k := Find(s.entries, id, 0); k < |s.entries| ==> s.entries[k].accepts > 0 && s.entries[k].acks == 0
    case Round => true
    case Pass(_, _) => !s.returned
  }

  function Next(s: Server, op: Op): Server {
    match op
    case Connect(id) => Connected(s, id)
    case Acknowledge(id) => Acknowledged(s, id)
    case Round => EstRound(s)
    case Pass(need, good) => Scan(s, 0, need, good)
  }

  lemma StepKeepsInv(s: Server, op: Op, t: Server)
    requires Inv(s) && Allowed(s, op) && t == Next(s, op)
    ensures Inv(t) && Forward(s, t)
    ensures !op.Connect? ==> |t.entries| == |s.entries|
    ensures !op.Round? ==> t.cursor == s.cursor
  {
    match op
    case Connect(id) => ConnectedKeepsInvIff(s, id);
    case Acknowledge(id) => AcknowledgedKeepsInvIff(s, id); AcknowledgedForward(s, id);
    case Round => WindowKeepsInv(s, First(s), 0);
    case Pass(need, good) => ScanKeepsInv(s, 0, need, good, t);
  }

  predicate IsRun(ss: seq<Server>, ops: seq<Op>) {
    && |ss| == |ops| + 1
    && forall i :: 0 <= i < |ops| ==> Allowed(ss[i], ops[i]) && ss[i + 1] == Next(ss[i], ops[i])
  }

  /** In every interleaving of the three threads: each connection moves forward only, is accepted,
      set up and configured exactly once, and the counters count them. */
  lemma {:induction false} RunKeepsInv(ss: seq<Server>, ops: seq<Op>, j: nat, k: nat)
    requires IsRun(ss, ops) && Inv(ss[0]) && j <= k < |ss|
    ensures Inv(ss[j]) && Inv(ss[k]) && Forward(ss[j], ss[k])
    decreases k
  {
    if k > 0 {
      if j < k {
        RunKeepsInv(ss, ops, j, k - 1);
        StepKeepsInv(ss[k - 1], ops[k - 1], ss[k]);
        ForwardTwice(ss[j], ss[k - 1], ss[k]);
      } else {
        RunKeepsInv(ss, ops, k - 1, k - 1);
        StepKeepsInv(ss[k - 1], ops[k - 1], ss[k]);
      }
    }
  }

  /** A server that has just been started. */
  function NewServer(): Server { Server([], None, 0, 0, false) }

  /** From there on, whatever the threads do: whenever a connection is ready it has been accepted,
      acknowledged and set up, each once, and `connections` is the number of those. */
  lemma RunFromNew(ss: seq<Server>, ops: seq<Op>, j: nat, k: nat)
    requires IsRun(ss, ops) && ss[0] == NewServer() && j <= k < |ss|
    ensures Inv(ss[k]) && Forward(ss[j], ss[k]) && ss[k].connections == Count(ss[k].entries, 3)
    ensures forall i :: 0 <= i < |ss[k].entries| && Rank(ss[k].entries[i].state) >= 3 ==>
              ss[k].entries[i].accepts == ss[k].entries[i].setups == 1 && ss[k].entries[i].acks > 0
  {
    RunKeepsInv(ss, ops, j, k);
    assert forall i :: 0 <= i < |ss[k].entries| ==> EntryOk(ss[k].entries[i]);
  }

  // ----- the window visits everyone

  /** Windows needed to go over n entries: n / 3, rounded up. */
  function Windows(n: nat): (w: nat)
    ensures n <= 3 * w < n + 3
  {
    if n == 0 then 0 else if n <= 3 then 1 else 1 + Windows(n - 3)
  }

  /** Rounds until the establishment thread has visited entry k of n. */
  function Wait(cursor: Option<nat>, k: nat, n: nat): nat {
    if cursor.None? then Windows(k + 1)
    else if cursor.value <= k then Windows(k + 1 - cursor.value)
    else if cursor.value < n then Windows(n - cursor.value) + Windows(k + 1)
    else 0
  }

  /** Never more than two passes. */
  lemma WaitBounded(cursor: Option<nat>, k: nat, n: nat)
    requires k < n && (cursor.Some? ==> cursor.value < n)
    ensures 1 <= Wait(cursor, k, n) <= 2 * Windows(n)
  {}

  /** What one round does to entry k: visit it, or leave it alone and come closer. */
  lemma {:induction false} WindowVisits(s: Server, at: nat, i: nat, k: nat)
    requires k < |s.entries| && at <= |s.entries| && i <= WINDOW
    ensures var r := Window(s, at, i);
            && |r.entries| == |s.entries|
            && r.entries[k] == (if at <= k < at + (WINDOW - i) then VisitedEntry(s.entries[k]) else s.entries[k])
            && r.cursor == if at + (WINDOW - i) < |s.entries| then Some(at + (WINDOW - i)) else None
    decreases |s.entries| - at
  {
    if at < |s.entries| && i < WINDOW {
      WindowVisits(Visited(s, at), at + 1, i + 1, k);
    }
  }

  /** One round visits entry k or comes at least a round closer, reckoned with any length n that the
      list has not outgrown. */
  lemma RoundVisits(s: Server, k: nat, n: nat)
    requires k < |s.entries| <= n && (s.cursor.Some? ==> s.cursor.value < |s.entries|)
    ensures var r := EstRound(s);
            && |r.entries| == |s.entries|
            && (r.entries[k] == VisitedEntry(s.entries[k])
                || (r.entries[k] == s.entries[k] && 1 <= Wait(r.cursor, k, n) < Wait(s.cursor, k, n)))
  {
    WindowVisits(s, First(s), 0, k);
  }

  /** Rounds of the establishment thread among the operations from j on. */
  function RoundsFrom(ops: seq<Op>, j: nat): nat
    requires j <= |ops|
    decreases |ops| - j
  {
    if j == |ops| then 0 else RoundsFrom(ops, j + 1) + if ops[j].Round? then 1 else 0
  }

  /** The thread has done its work on entry k since s. */
  predicate Served(s: Server, t: Server, k: nat)
    requires k < |s.entries| && k < |t.entries|
  {
    && Rank(t.entries[k].state) >= 1
    && (s.entries[k].state.Established? ==> Rank(t.entries[k].state) >= 3)
  }

  /** So many rounds of the establishment thread serve entry k, whatever the other threads do in
      between, connect requests included; the length that counts is the final one. */
  lemma {:induction false} RunServes(ss: seq<Server>, ops: seq<Op>, j: nat, k: nat)
    requires IsRun(ss, ops) && Inv(ss[0]) && j <= |ops|
    requires k < |ss[j].entries| && RoundsFrom(ops, j) >= Wait(ss[j].cursor, k, |ss[|ops|].entries|)
    ensures k < |ss[|ops|].entries| && Served(ss[j], ss[|ops|], k)
    decreases |ops| - j
  {
    var s, n := ss[j], |ss[|ops|].entries|;
    RunKeepsInv(ss, ops, 0, j);
    RunKeepsInv(ss, ops, j, |ops|);
    WaitBounded(s.cursor, k, n);
    var t := ss[j + 1];
    StepKeepsInv(s, ops[j], t);
    RunKeepsInv(ss, ops, j + 1, |ops|);
    if ops[j].Round? {
      RoundVisits(s, k, n);
    }
    if !(ops[j].Round? && t.entries[k] == VisitedEntry(s.entries[k])) {
      RunServes(ss, ops, j + 1, k);
    }
  }

  /** Two passes over the list as it is in the end serve everyone who was in it at the start. */
  lemma RunServesAll(ss: seq<Server>, ops: seq<Op>, j: nat)
    requires IsRun(ss, ops) && Inv(ss[0]) && j <= |ops|
    requires RoundsFrom(ops, j) >= 2 * Windows(|ss[|ops|].entries|)
    ensures |ss[j].entries| <= |ss[|ops|].entries|
    ensures forall k :: 0 <= k < |ss[j].entries| ==> Served(ss[j], ss[|ops|], k)
  {
    RunKeepsInv(ss, ops, 0, j);
    RunKeepsInv(ss, ops, j, |ops|);
    forall k | 0 <= k < |ss[j].entries|
      ensures Served(ss[j], ss[|ops|], k)
    {
      WaitBounded(ss[j].cursor, k, |ss[|ops|].entries|);
      RunServes(ss, ops, j, k);
    }
  }

  // ----- the loops of the threads

  class HandshakeServer {
    var entries: seq<Entry>
    var cursor: Option<nat>   // temp of est_thread
    var connections: nat
    var configured: nat       // qp_cfg_cnt
    var returned: bool

    ghost function View(): Server reads this { Server(entries, cursor, connections, configured, returned) }

    constructor ()
      ensures View() == NewServer() && Inv(View())
    {
      entries, cursor, connections, configured, returned := [], None, 0, 0, false;
    }

    /** set_ctx_to_rx_connect_req on a connect request. */
    method ConnectRequest(id: nat)
      requires Inv(View())
      modifies this`entries
      ensures View() == Connected(old(View()), id)
      ensures Inv(View()) <==> forall e <- old(entries) :: e.id != id
    {
      ConnectedKeepsInvIff(View(), id);
      entries := entries + [Entry(id, ConnectReq, 0, 0, 0, 0)];
    }

    /** update_ctx_entry on RDMA_CM_EVENT_ESTABLISHED. */
    method UpdateEntry(id: nat) returns (found: bool)
      requires Inv(View())
      modifies this`entries
      ensures View() == Acknowledged(old(View()), id)
      ensures found <==> exists k :: 0 <= k < |entries| && entries[k].id == id
      ensures Inv(View()) <==> (forall e <- old(entries) :: e.id == id ==> 1 <= Rank(e.state) <= 2)
    {
      AcknowledgedKeepsInvIff(View(), id);
      var k := 0;
      while k < |entries| && entries[k].id != id
        invariant 0 <= k <= |entries| && Find(entries, id, 0) == Find(entries, id, k)
      {
        k := k + 1;
      }
      found := k < |entries|;
      if found {
        entries := entries[k := AckedEntry(entries[k])];
        assert entries[k].id == id;
      }
    }

    /** Lines 604-643. */
    method Visit(k: nat)
      requires k < |entries|
      modifies this`entries, this`connections
      ensures View() == Visited(old(View()), k)
    {
      var e := entries[k];
      if e.state.ConnectReq? {
        entries := entries[k := e.(state := ReqProc, accepts := e.accepts + 1)];
      } else if e.state.Established? {
        entries := entries[k := e.(state := Ready, setups := e.setups + 1)];
        connections := connections + 1;
      }
      assert entries == old(entries)[k := VisitedEntry(e)];
    }

    /** One round of est_thread. */
    method EstablishRound()
      requires Inv(View())
      modifies this
      ensures View() == EstRound(old(View())) && Inv(View()) && Forward(old(View()), View())
    {
      WindowKeepsInv(View(), First(View()), 0);
      var k, i := if cursor.Some? then cursor.value else 0, 0;
      while k < |entries| && i < WINDOW
        invariant 0 <= k && 0 <= i <= WINDOW && |entries| == |old(entries)|
        invariant Window(View(), k, i) == EstRound(old(View()))
      {
        Visit(k);
        k, i := k + 1, i + 1;
      }
      cursor := if k < |entries| then Some(k) else None;
    }

    /** Lines 689-703. */
    method ServeEntry(k: nat, need: nat, left: nat) returns (stop: bool, left': nat)
      requires k < |entries|
      modifies this`entries, this`configured, this`returned
      ensures |entries| == |old(entries)|
      ensures stop ==> View() == Scan(old(View()), k, need, left)
      ensures !stop ==> Scan(View(), k + 1, need, left') == Scan(old(View()), k, need, left)
    {
      left' := left;
      var e := entries[k];
      if e.state.Ready? {
        if left == 0 {
          returned := true;
          return true, left;
        }
        entries := entries[k := e.(state := CfgDone, configs := e.configs + 1)];
        configured := configured + 1;
        if configured >= need {
          returned := true;
          return true, left;
        }
        entries := entries[k := entries[k].(state := Invalid)];
        assert View() == Configured(old(View()), k, Invalid);
        left' := left - 1;
      }
      stop := false;
    }

    /** One locked scan of run_server. */
    method ServePass(need: nat, good: nat)
      requires Inv(View())
      modifies this
      ensures View() == Scan(old(View()), 0, need, good) && Inv(View()) && Forward(old(View()), View())
      ensures Scanned(old(View()), 0, need, good, View())
    {
      ScanIs(View(), 0, need, good);
      ScanKeepsInv(View(), 0, need, good, Scan(View(), 0, need, good));
      var k, left, stop := 0, good, false;
      while k < |entries| && !stop
        invariant 0 <= k && 0 <= left && |entries| == |old(entries)|
        invariant if stop then View() == Scan(old(View()), 0, need, good)
                  else Scan(View(), k, need, left) == Scan(old(View()), 0, need, good)
      {
        stop, left := ServeEntry(k, need, left);
        k := k + 1;
      }
    }
  }
}
