/** The ping/pong protocol: the host client, with its data thread and its completion thread
    (host_apps/xrping/xrping.c), against the board server (recipes-apps/xrping/files/xrping.c),
    over a reliable ordered link with one-sided READ and WRITE. */
module Rping {

  /** Program counter of rping_test_client. */
  datatype ClientPc =
    | Top        // loop head, and state := RDMA_READ_ADV
    | Fill       // fill start_buf and copy it to the shared buffer
    | PostPing   // post the first SEND
    | WaitGo     // first sem_wait
    | CheckGo    // state must be RDMA_WRITE_ADV
    | Wipe       // memset of the shared buffer
    | PostPong   // post the second SEND
    | WaitEnd    // second sem_wait
    | CheckEnd   // state must be RDMA_WRITE_COMPLETE
    | Compare    // memcmp
    | Finished
    | Failed

  datatype ClientState = Connected | ReadAdv | WriteAdv | WriteComplete

  datatype Kind = SendDone | RecvDone

  /** The completion thread: idle, or inside the RECV case before post_recv or before sem_post. */
  datatype Handler = Idle | Repost | Signal

  datatype Client = Client(
    pc: ClientPc, state: ClientState, sem: nat, ping: nat, start: seq<nat>, buf: seq<nat>,
    handler: Handler, batch: seq<Kind>,          // completion thread
    sq: nat, done: nat, cq: seq<Kind>, recvs: nat,   // queue pair: posted sends, completed sends, CQ, posted receives
    sendsSeen: nat)                              // for the record: SEND completions handled or dropped

  /** Program counter of test_server_rping; PollX waits for completion r + X. */
  datatype ServerPc =
    | PostRecv0 | Poll0 | PostRead | Poll1 | PostRecv3 | PostSend2 | Poll3
    | PostWrite | Poll4 | PostSend5 | Poll5 | Returned

  datatype Opcode = Send | Read | Write

  datatype Work = Work(op: Opcode, id: nat)

  datatype Server = Server(
    pc: ServerPc, r: nat, i: nat, iter: nat, recvBuf: nat, buf: seq<nat>,
    sq: seq<Work>, done: seq<nat>, cq: seq<nat>, recvs: seq<nat>)

  /** The client's messages carry its iteration count. Beside it, what really happened: the contents
      of each ping, what each READ brought to the server, and what each WRITE left at the client. */
  datatype World = World(count: nat, c: Client, s: Server, toServer: seq<nat>, toClient: nat,
                         filled: seq<seq<nat>>, fetched: seq<seq<nat>>, stored: seq<seq<nat>>)

  const WC_CNT := 10

  datatype Step =
    | ClientStep(data: seq<nat>)   // data is what Fill writes
    | ClientExec | ClientComplete | ClientDeliver
    | TakeBatch(k: nat) | Handle
    | ServerStep(r: nat)           // r is what rand returns at the loop head
    | ServerExec | ServerComplete | ServerDeliver

  predicate Enabled(w: World, step: Step) {
    match step
    case ClientStep(_) => !w.c.pc.Finished? && !w.c.pc.Failed? && (w.c.pc.WaitGo? || w.c.pc.WaitEnd? ==> w.c.sem > 0)
    case ClientExec => w.c.sq > 0
    case ClientComplete => w.c.done > 0
    case ClientDeliver => w.toClient > 0 && w.c.recvs > 0
    case TakeBatch(k) => w.c.handler.Idle? && w.c.batch == [] && 0 < k <= |w.c.cq| && k <= WC_CNT
    case Handle => !w.c.handler.Idle? || w.c.batch != []
    case ServerStep(_) =>
      !w.s.pc.Returned?
      && (w.s.pc.Poll0? || w.s.pc.Poll1? || w.s.pc.Poll3? || w.s.pc.Poll4? || w.s.pc.Poll5? ==> w.s.cq != [])
    case ServerExec => w.s.sq != []
    case ServerComplete => w.s.done != []
    case ServerDeliver => w.toServer != [] && w.s.recvs != []
  }

  function Wiped(n: nat): seq<nat> { seq(n, _ => 0x0F) }

  /** One step of rping_test_client. */
  function ClientNext(c: Client, count: nat, data: seq<nat>): Client
    requires c.pc.WaitGo? || c.pc.WaitEnd? ==> c.sem > 0
  {
    match c.pc
    case Top => if count == 0 || c.ping < count then c.(state := ReadAdv, pc := Fill) else c.(pc := Finished)
    case Fill => c.(start := data, buf := data, pc := PostPing)
    case PostPing => c.(sq := c.sq + 1, pc := WaitGo)
    case WaitGo => c.(sem := c.sem - 1, pc := CheckGo)
    case CheckGo => c.(pc := if c.state == WriteAdv then Wipe else Failed)
    case Wipe => c.(buf := Wiped(|c.start|), pc := PostPong)
    case PostPong => c.(sq := c.sq + 1, pc := WaitEnd)
    case WaitEnd => c.(sem := c.sem - 1, pc := CheckEnd)
    case CheckEnd => c.(pc := if c.state == WriteComplete then Compare else Failed)
    case Compare => if c.start == c.buf then c.(ping := c.ping + 1, pc := Top) else c.(pc := Failed)
    case _ => c
  }

  /** One step of rping_cq_event_handler: after one RECV the rest of the batch is dropped. */
  function HandlerNext(c: Client): Client
    requires !c.handler.Idle? || c.batch != []
  {
    match c.handler
    case Idle =>
      if c.batch[0].SendDone? then c.(batch := c.batch[1..], sendsSeen := c.sendsSeen + 1)
      else c.(state := if c.state == ReadAdv then WriteAdv else WriteComplete, batch := [], handler := Repost,
              sendsSeen := c.sendsSeen + multiset(c.batch)[SendDone])
    case Repost => c.(recvs := c.recvs + 1, handler := Signal)
    case Signal => c.(sem := c.sem + 1, handler := Idle)
  }

  /** rdmatest_poll_cq takes one completion and goes on only if it is the one waited for. */
  function Polled(s: Server, id: nat, next: Server): Server
    requires s.cq != []
  {
    if s.cq[0] == id then next.(cq := s.cq[1..]) else s.(cq := s.cq[1..])
  }

  /** One step of test_server_rping. */
  function ServerNext(s: Server, r: nat): Server
    requires s.pc.Poll0? || s.pc.Poll1? || s.pc.Poll3? || s.pc.Poll4? || s.pc.Poll5? ==> s.cq != []
  {
    match s.pc
    case PostRecv0 => s.(r := r, recvs := s.recvs + [r], pc := Poll0)
    case Poll0 => Polled(s, s.r, s.(iter := if s.i == 0 then s.recvBuf else s.iter, pc := PostRead))
    case PostRead => s.(sq := s.sq + [Work(Read, s.r + 1)], pc := Poll1)
    case Poll1 => Polled(s, s.r + 1, s.(pc := PostRecv3))
    case PostRecv3 => s.(recvs := s.recvs + [s.r + 3], pc := PostSend2)
    case PostSend2 => s.(sq := s.sq + [Work(Send, s.r + 2)], pc := Poll3)
    case Poll3 => Polled(s, s.r + 3, s.(pc := PostWrite))
    case PostWrite => s.(sq := s.sq + [Work(Write, s.r + 4)], pc := Poll4)
    case Poll4 => Polled(s, s.r + 4, s.(pc := PostSend5))
    case PostSend5 => s.(sq := s.sq + [Work(Send, s.r + 5)], pc := Poll5)
    case Poll5 => Polled(s, s.r + 5, s.(i := s.i + 1, pc := if s.i + 1 < s.iter then PostRecv0 else Returned))
    case Returned => s
  }

  /** The server's queue pair carries out its oldest work request. */
  function ServerExecuted(w: World): World
    requires w.s.sq != []
  {
    var work := w.s.sq[0];
    var s := w.s.(sq := w.s.sq[1..], done := w.s.done + [work.id]);
    match work.op
    case Send => w.(s := s, toClient := w.toClient + 1)
    case Read =>
      var s' := s.(buf := w.c.buf);
      w.(s := s', fetched := w.fetched + [s'.buf])
    case Write =>
      var c' := w.c.(buf := w.s.buf);
      w.(s := s, c := c', stored := w.stored + [c'.buf])
  }

  function Next(w: World, step: Step): World
    requires Enabled(w, step)
  {
    match step
    case ClientStep(data) =>
      w.(c := ClientNext(w.c, w.count, data), filled := if w.c.pc.Fill? then w.filled + [data] else w.filled)
    case ClientExec => w.(c := w.c.(sq := w.c.sq - 1, done := w.c.done + 1), toServer := w.toServer + [w.count])
    case ClientComplete => w.(c := w.c.(done := w.c.done - 1, cq := w.c.cq + [SendDone]))
    case ClientDeliver => w.(toClient := w.toClient - 1, c := w.c.(recvs := w.c.recvs - 1, cq := w.c.cq + [RecvDone]))
    case TakeBatch(k) => w.(c := w.c.(batch := w.c.cq[..k], cq := w.c.cq[k..]))
    case Handle => w.(c := HandlerNext(w.c))
    case ServerStep(r) => w.(s := ServerNext(w.s, r))
    case ServerExec => ServerExecuted(w)
    case ServerComplete => w.(s := w.s.(done := w.s.done[1..], cq := w.s.cq + [w.s.done[0]]))
    case ServerDeliver =>
      w.(toServer := w.toServer[1..],
         s := w.s.(recvs := w.s.recvs[1..], cq := w.s.cq + [w.s.recvs[0]], recvBuf := w.toServer[0]))
  }

  /** Connected, with the client's first receive posted. */
  predicate Start(w: World) {
    && w.c == Client(Top, Connected, 0, 0, w.c.start, w.c.buf, Idle, [], 0, 0, [], 1, 0)
    && w.s == Server(PostRecv0, w.s.r, 0, 1, w.s.recvBuf, w.s.buf, [], [], [], [])
    && w.toServer == [] && w.toClient == 0 && w.filled == w.fetched == w.stored == []
  }

  // ----- where a round stands

  /** How many rounds the server makes: a count of 0 means "for ever" to the client, but the server
      stops after its first round. */
  function Rounds(count: nat): nat { if count == 0 then 1 else count }

  const LAST := 36

  /** The data thread at stage g. */
  predicate ThreadAt(w: World, g: nat) {
    var c := w.c;
    && c.pc == (if g == 0 then (if c.pc.Finished? then Finished else Top)
                else if g == 1 then Fill
                else if g == 2 then PostPing
                else if g <= 17 then WaitGo
                else if g == 18 then CheckGo
                else if g == 19 then Wipe
                else if g == 20 then PostPong
                else if g <= 34 then WaitEnd
                else if g == 35 then CheckEnd
                else Compare)
    && (1 <= g <= 14 ==> c.state == ReadAdv)
    && (15 <= g <= 31 ==> c.state == WriteAdv)
    && (32 <= g ==> c.state == WriteComplete)
    && c.sem == (if g == 17 || g == 34 then 1 else 0)
    && (2 <= g <= 19 ==> c.buf == c.start)
    && (26 <= g ==> c.buf == c.start)
    && (c.pc.Finished? ==> w.count > 0 && c.ping == w.count)
  }

  /** Receive completions the client has not handled. */
  function Unhandled(c: Client): nat { multiset(c.batch)[RecvDone] + multiset(c.cq)[RecvDone] }

  /** The completion thread and the client's queue pair at stage g. */
  predicate HandlerAt(c: Client, g: nat) {
    && c.handler == (if g == 15 || g == 32 then Repost else if g == 16 || g == 33 then Signal else Idle)
    && (!c.handler.Idle? ==> c.batch == [])
    && Unhandled(c) == (if g == 14 || g == 31 then 1 else 0)
    && c.sq == (if g == 3 || g == 21 then 1 else 0)
    && c.recvs == (if g == 14 || g == 15 || g == 31 || g == 32 then 0 else 1)
  }

  predicate WireAt(w: World, g: nat) {
    && w.toServer == (if g == 4 || g == 22 then [w.count] else [])
    && w.toClient == (if g == 13 || g == 30 then 1 else 0)
  }

  /** Completion `id` of a SEND is still on its way, or has been read and discarded. */
  predicate Left(s: Server, id: nat) {
    || (s.done == [id] && s.cq == [])
    || (s.done == [] && (s.cq == [id] || s.cq == []))
  }

  /** The server between receiving the first message of a round and sending the last. */
  predicate MiddleAt(s: Server, g: nat) {
    && s.pc == (if g == 5 then Poll0
                else if g == 6 then PostRead
                else if g <= 9 then Poll1
                else if g == 10 then PostRecv3
                else if g == 11 then PostSend2
                else if g <= 23 then Poll3
                else if g == 24 then PostWrite
                else if g <= 27 then Poll4
                else if g == 28 then PostSend5
                else Poll5)
    && s.recvs == (if 11 <= g <= 22 then [s.r + 3] else [])
    && s.sq == (if g == 7 then [Work(Read, s.r + 1)]
                else if g == 12 then [Work(Send, s.r + 2)]
                else if g == 25 then [Work(Write, s.r + 4)]
                else if g == 29 then [Work(Send, s.r + 5)]
                else [])
    && (if g == 5 then s.done == [] && s.cq == [s.r]
        else if g == 8 then s.done == [s.r + 1] && s.cq == []
        else if g == 9 then s.done == [] && s.cq == [s.r + 1]
        else if g <= 12 then s.done == [] && s.cq == []
        else if g <= 22 then Left(s, s.r + 2)
        else if g == 23 then
          || (s.done == [s.r + 2] && s.cq == [s.r + 3])
          || (s.done == [] && (s.cq == [s.r + 3] || s.cq == [s.r + 2, s.r + 3] || s.cq == [s.r + 3, s.r + 2]))
        else if g <= 25 then Left(s, s.r + 2)
        else if g == 26 then
          || (s.done == [s.r + 2, s.r + 4] && s.cq == [])
          || (s.done == [s.r + 4] && (s.cq == [s.r + 2] || s.cq == []))
        else if g == 27 then s.done == [] && (s.cq == [s.r + 2, s.r + 4] || s.cq == [s.r + 4])
        else s.done == [] && s.cq == [])
  }

  /** The server between its last message of one round and the first message of the next; it has
      sent the last message of `rounds` rounds. */
  predicate TailAt(s: Server, rounds: nat, count: nat) {
    && s.sq == []
    && (match s.pc
        case Poll5 =>
          && s.i + 1 == rounds && s.recvs == [] && s.iter == count
          && ((s.done == [s.r + 5] && s.cq == []) || (s.done == [] && s.cq == [s.r + 5]))
        case PostRecv0 => s.i == rounds < Rounds(count) && s.done == [] && s.cq == [] && s.recvs == []
        case Poll0 => s.i == rounds < Rounds(count) && s.done == [] && s.cq == [] && s.recvs == [s.r]
        case Returned => s.i == rounds == Rounds(count) && s.done == [] && s.cq == [] && s.recvs == []
        case _ => false)
  }

  predicate ServerAt(w: World, g: nat) {
    && (if 5 <= g <= 29 then MiddleAt(w.s, g) && w.s.i == w.c.ping < Rounds(w.count)
        else TailAt(w.s, if g <= 4 then w.c.ping else w.c.ping + 1, w.count))
    && (w.s.i > 0 || 6 <= g ==> w.s.iter == w.count)
    && (g == 5 ==> w.s.recvBuf == w.count)
    && (8 <= g <= 25 ==> w.s.buf == w.c.start)
  }

  /** The round stands at stage g. */
  predicate At(w: World, g: nat) {
    && g <= LAST && w.c.ping <= Rounds(w.count)
    && (w.c.ping == Rounds(w.count) ==> g <= 4 && (w.count > 0 ==> g == 0))
    && ThreadAt(w, g) && HandlerAt(w.c, g) && WireAt(w, g) && ServerAt(w, g)
  }

  // ----- the data

  /** Every byte is what memset left. */
  ghost predicate AllWiped(buf: seq<nat>) { forall i :: 0 <= i < |buf| ==> buf[i] == 0x0F }

  /** SENDs of the client, wherever their completions are. */
  function Sends(c: Client): nat { c.sq + c.done + multiset(c.cq)[SendDone] + multiset(c.batch)[SendDone] + c.sendsSeen }

  /** The first n pings. */
  ghost predicate Copies(log: seq<seq<nat>>, filled: seq<seq<nat>>, n: nat) { n <= |filled| && log == filled[..n] }

  /** At stage g of round `ping`: so many pings have been filled, read and written back, each with its
      own contents, and between the wipe and the WRITE nothing of the ping is left at the client. */
  ghost predicate DataAt(w: World, g: nat) {
    var k := w.c.ping;
    && |w.filled| == (if g >= 2 then k + 1 else k)
    && (g >= 2 ==> w.filled[k] == w.c.start)
    && Copies(w.fetched, w.filled, if g >= 8 then k + 1 else k)
    && Copies(w.stored, w.filled, if g >= 26 then k + 1 else k)
    && (20 <= g <= 25 ==> |w.c.buf| == |w.c.start| && AllWiped(w.c.buf))
    && Sends(w.c) == 2 * k + (if g >= 21 then 2 else if g >= 3 then 1 else 0)
  }

  lemma CopiesGrow(log: seq<seq<nat>>, filled: seq<seq<nat>>, n: nat, d: seq<nat>)
    requires Copies(log, filled, n)
    ensures Copies(log, filled + [d], n)
    ensures n < |filled| && filled[n] == d ==> Copies(log + [d], filled, n + 1)
  {
    assert (filled + [d])[..n] == filled[..n];
    if n < |filled| { assert filled[..n + 1] == filled[..n] + [filled[n]]; }
  }

  lemma FillData(w: World, data: seq<nat>, w': World)
    requires At(w, 1) && DataAt(w, 1) && w' == Next(w, ClientStep(data))
    ensures DataAt(w', 2)
  {
    CopiesGrow(w.fetched, w.filled, |w.fetched|, data);
    CopiesGrow(w.stored, w.filled, |w.stored|, data);
  }

  lemma WipeData(w: World, data: seq<nat>, w': World)
    requires At(w, 19) && DataAt(w, 19) && w' == Next(w, ClientStep(data))
    ensures DataAt(w', 20)
  {}

  lemma ThreadData(w: World, data: seq<nat>, g: nat, w': World, g': nat)
    requires At(w, g) && DataAt(w, g) && g != 1 && g != 19 && Enabled(w, ClientStep(data))
    requires w' == Next(w, ClientStep(data)) && g' == Stage(w, ClientStep(data), g)
    ensures DataAt(w', g')
  {}

  lemma ClientData(w: World, data: seq<nat>, g: nat, w': World, g': nat)
    requires At(w, g) && DataAt(w, g) && Enabled(w, ClientStep(data))
    requires w' == Next(w, ClientStep(data)) && g' == Stage(w, ClientStep(data), g)
    ensures DataAt(w', g')
  {
    if g == 1 {
      FillData(w, data, w');
    } else if g == 19 {
      WipeData(w, data, w');
    } else {
      ThreadData(w, data, g, w', g');
    }
  }

  lemma ExecData(w: World, g: nat, w': World, g': nat)
    requires At(w, g) && DataAt(w, g) && Enabled(w, ServerExec) && w' == Next(w, ServerExec) && g' == Stage(w, ServerExec, g)
    ensures DataAt(w', g')
  {
    CopiesGrow(w.fetched, w.filled, |w.fetched|, w.c.start);
    CopiesGrow(w.stored, w.filled, |w.stored|, w.c.start);
  }

  /** The other steps touch no data ... */
  lemma OtherKeeps(w: World, step: Step, w': World)
    requires Enabled(w, step) && !step.ClientStep? && !step.ServerExec? && w' == Next(w, step)
    ensures w'.filled == w.filled && w'.fetched == w.fetched && w'.stored == w.stored
    ensures w'.c.ping == w.c.ping && w'.c.buf == w.c.buf && w'.c.start == w.c.start && Sends(w'.c) == Sends(w.c)
  {
    match step
    case TakeBatch(k) => assert w.c.cq == w.c.cq[..k] + w.c.cq[k..];
    case Handle => assert w.c.batch != [] ==> w.c.batch == [w.c.batch[0]] + w.c.batch[1..];
    case _ =>
  }

  /** ... and lead over none of the stages at which data move. */
  lemma OtherStages(w: World, step: Step, g: nat)
    requires At(w, g) && Enabled(w, step) && !step.ClientStep? && !step.ServerExec? && Moves(w, step, g)
    ensures g != 1 && g != 2 && g != 7 && g != 19 && g != 20 && g != 25 && g != LAST
  {}

  lemma OtherData(w: World, step: Step, g: nat, w': World, g': nat)
    requires At(w, g) && DataAt(w, g) && Enabled(w, step) && !step.ClientStep? && !step.ServerExec?
    requires w' == Next(w, step) && g' == Stage(w, step, g)
    ensures DataAt(w', g')
  {
    OtherKeeps(w, step, w');
    if Moves(w, step, g) { OtherStages(w, step, g); }
  }

  lemma StepData(w: World, step: Step, g: nat, w': World, g': nat)
    requires At(w, g) && DataAt(w, g) && Enabled(w, step) && w' == Next(w, step) && g' == Stage(w, step, g)
    ensures DataAt(w', g')
  {
    match step
    case ClientStep(data) => ClientData(w, data, g, w', g');
    case ServerExec => ExecData(w, g, w', g');
    case _ => OtherData(w, step, g, w', g');
  }

  // ----- every step keeps its place or moves on by one

  /** The completion that a polling server waits for. */
  function Awaited(s: Server): nat {
    match s.pc
    case Poll1 => s.r + 1
    case Poll3 => s.r + 3
    case Poll4 => s.r + 4
    case Poll5 => s.r + 5
    case _ => s.r
  }

  /** The step hands the turn on. */
  predicate Moves(w: World, step: Step, g: nat) {
    match step
    case ClientStep(_) => true
    case ClientComplete => false
    case TakeBatch(_) => false
    case Handle => !w.c.handler.Idle? || (w.c.batch != [] && w.c.batch[0].RecvDone?)
    case ServerStep(_) =>
      && !w.s.pc.PostRecv0? && !w.s.pc.Poll5?
      && (w.s.pc.Poll0? || w.s.pc.Poll1? || w.s.pc.Poll3? || w.s.pc.Poll4? ==> w.s.cq != [] && w.s.cq[0] == Awaited(w.s))
    case ServerComplete => g == 8 || (g == 26 && w.s.done != [] && w.s.done[0] == w.s.r + 4)
    case _ => true
  }

  /** The client leaves its loop. */
  predicate Leaves(w: World, step: Step) {
    step.ClientStep? && w.c.pc.Top? && !(w.count == 0 || w.c.ping < w.count)
  }

  function Stage(w: World, step: Step, g: nat): nat {
    if !Moves(w, step, g) || Leaves(w, step) then g else if g == LAST then 0 else g + 1
  }

  lemma ClientStepAt(w: World, data: seq<nat>, g: nat, w': World, g': nat)
    requires At(w, g) && Enabled(w, ClientStep(data)) && w' == Next(w, ClientStep(data)) && g' == Stage(w, ClientStep(data), g)
    ensures At(w', g')
  {}

  lemma ClientSendAt(w: World, step: Step, g: nat, w': World, g': nat)
    requires At(w, g) && (step.ClientExec? || step.ClientComplete?)
    requires Enabled(w, step) && w' == Next(w, step) && g' == Stage(w, step, g)
    ensures At(w', g')
  {}

  lemma ClientDeliverAt(w: World, g: nat, w': World, g': nat)
    requires At(w, g) && Enabled(w, ClientDeliver) && w' == Next(w, ClientDeliver) && g' == Stage(w, ClientDeliver, g)
    ensures At(w', g')
  {}

  lemma TakeBatchAt(w: World, k: nat, g: nat, w': World)
    requires At(w, g) && Enabled(w, TakeBatch(k)) && w' == Next(w, TakeBatch(k))
    ensures At(w', g)
  {
    assert w.c.cq == w.c.cq[..k] + w.c.cq[k..];
  }

  /** The completion thread drops the rest of its batch after a RECV; no RECV is ever lost so,
      because at most one is outstanding. */
  lemma HandleCounts(c: Client)
    requires c.handler.Idle? && c.batch != [] && Unhandled(c) <= 1
    ensures Unhandled(HandlerNext(c)) == if c.batch[0].RecvDone? then Unhandled(c) - 1 else Unhandled(c)
  {
    assert c.batch == [c.batch[0]] + c.batch[1..];
  }

  lemma HandleSendAt(w: World, g: nat, w': World)
    requires At(w, g) && w.c.handler.Idle? && w.c.batch != [] && w.c.batch[0].SendDone? && w' == Next(w, Handle)
    ensures At(w', g)
  {
    HandleCounts(w.c);
  }

  lemma HandleRecvAt(w: World, g: nat, w': World)
    requires At(w, g) && w.c.handler.Idle? && w.c.batch != [] && w.c.batch[0].RecvDone? && w' == Next(w, Handle)
    ensures (g == 14 || g == 31) && At(w', g + 1)
  {
    HandleCounts(w.c);
    assert w.c.batch[0] in multiset(w.c.batch);
  }

  lemma HandleRestAt(w: World, g: nat, w': World)
    requires At(w, g) && !w.c.handler.Idle? && w' == Next(w, Handle)
    ensures g < LAST && At(w', g + 1)
  {}

  lemma HandleAt(w: World, g: nat, w': World, g': nat)
    requires At(w, g) && Enabled(w, Handle) && w' == Next(w, Handle) && g' == Stage(w, Handle, g)
    ensures At(w', g')
  {
    if !w.c.handler.Idle? {
      HandleRestAt(w, g, w');
    } else if w.c.batch[0].SendDone? {
      HandleSendAt(w, g, w');
    } else {
      HandleRecvAt(w, g, w');
    }
  }

  predicate Polling(s: Server) { s.pc.Poll0? || s.pc.Poll1? || s.pc.Poll3? || s.pc.Poll4? || s.pc.Poll5? }

  lemma MiddlePost(s: Server, g: nat, r: nat)
    requires 5 <= g <= 29 && MiddleAt(s, g) && !Polling(s)
    ensures g < 29 && MiddleAt(ServerNext(s, r), g + 1)
  {}

  lemma ServerPostAt(w: World, r: nat, g: nat, w': World, g': nat)
    requires At(w, g) && Enabled(w, ServerStep(r)) && w' == Next(w, ServerStep(r)) && g' == Stage(w, ServerStep(r), g)
    requires !Polling(w.s)
    ensures At(w', g')
  {
    if 5 <= g <= 29 {
      MiddlePost(w.s, g, r);
    }
  }

  /** Polling either takes the completion waited for or discards the completion of an earlier SEND. */
  lemma MiddlePoll(s: Server, g: nat, r: nat)
    requires 5 <= g < 29 && MiddleAt(s, g) && Polling(s) && s.cq != []
    ensures if s.cq[0] == Awaited(s) then MiddleAt(ServerNext(s, r), g + 1) else MiddleAt(ServerNext(s, r), g)
  {}

  lemma ServerPollAt(w: World, r: nat, g: nat, w': World, g': nat)
    requires At(w, g) && Enabled(w, ServerStep(r)) && w' == Next(w, ServerStep(r)) && g' == Stage(w, ServerStep(r), g)
    requires Polling(w.s)
    ensures At(w', g')
  {
    if 5 <= g < 29 {
      MiddlePoll(w.s, g, r);
    }
  }

  lemma ServerExecAt(w: World, g: nat, w': World, g': nat)
    requires At(w, g) && Enabled(w, ServerExec) && w' == Next(w, ServerExec) && g' == Stage(w, ServerExec, g)
    ensures At(w', g')
  {}

  /** A completion entry of the server is written. */
  function Written(s: Server): Server
    requires s.done != []
  {
    s.(done := s.done[1..], cq := s.cq + [s.done[0]])
  }

  lemma MiddleWritten(s: Server, g: nat)
    requires 5 <= g <= 29 && MiddleAt(s, g) && s.done != []
    ensures g != 29 && MiddleAt(Written(s), if g == 8 || (g == 26 && s.done[0] == s.r + 4) then g + 1 else g)
  {}

  lemma TailWritten(s: Server, rounds: nat, count: nat)
    requires TailAt(s, rounds, count) && s.done != []
    ensures TailAt(Written(s), rounds, count)
  {}

  lemma ServerCompleteAt(w: World, g: nat, w': World, g': nat)
    requires At(w, g) && Enabled(w, ServerComplete) && w' == Next(w, ServerComplete) && g' == Stage(w, ServerComplete, g)
    ensures At(w', g')
  {
    if 5 <= g <= 29 {
      MiddleWritten(w.s, g);
    } else {
      TailWritten(w.s, if g <= 4 then w.c.ping else w.c.ping + 1, w.count);
    }
  }

  lemma ServerDeliverAt(w: World, g: nat, w': World, g': nat)
    requires At(w, g) && Enabled(w, ServerDeliver) && w' == Next(w, ServerDeliver) && g' == Stage(w, ServerDeliver, g)
    ensures At(w', g')
  {}

  lemma StepAt(w: World, step: Step, g: nat, w': World, g': nat)
    requires At(w, g) && Enabled(w, step) && w' == Next(w, step) && g' == Stage(w, step, g)
    ensures At(w', g')
  {
    match step
    case ClientStep(data) => ClientStepAt(w, data, g, w', g');
    case ClientExec => ClientSendAt(w, step, g, w', g');
    case ClientComplete => ClientSendAt(w, step, g, w', g');
    case ClientDeliver => ClientDeliverAt(w, g, w', g');
    case TakeBatch(k) => TakeBatchAt(w, k, g, w');
    case Handle => HandleAt(w, g, w', g');
    case ServerStep(r) => if Polling(w.s) { ServerPollAt(w, r, g, w', g'); } else { ServerPostAt(w, r, g, w', g'); }
    case ServerExec => ServerExecAt(w, g, w', g');
    case ServerComplete => ServerCompleteAt(w, g, w', g');
    case ServerDeliver => ServerDeliverAt(w, g, w', g');
  }

  // ----- what holds at every stage

  /** The server READs only while the client waits with this ping's data in its buffer, and WRITEs
      that data back only while the client waits for it. */
  lemma OneSidedSafe(w: World, g: nat)
    requires At(w, g) && w.s.sq != []
    ensures w.s.sq[0].op.Read? ==> w.c.pc.WaitGo? && w.c.sem == 0 && w.c.buf == w.c.start && w.s.i == w.c.ping
    ensures w.s.sq[0].op.Write? ==> w.c.pc.WaitEnd? && w.c.sem == 0 && w.s.buf == w.c.start && w.s.i == w.c.ping
  {}

  /** Neither state check nor the comparison ever fails. */
  lemma ChecksPass(w: World, data: seq<nat>, g: nat)
    requires At(w, g) && Enabled(w, ClientStep(data))
    ensures !w.c.pc.Failed? && !Next(w, ClientStep(data)).c.pc.Failed?
  {}

  /** A RECV in the batch is the only one the client has; dropping what follows it loses nothing. */
  lemma BatchLosesNothing(w: World, g: nat)
    requires At(w, g) && w.c.batch != [] && w.c.batch[0].RecvDone?
    ensures RecvDone !in w.c.batch[1..] && RecvDone !in w.c.cq
  {
    assert w.c.batch == [w.c.batch[0]] + w.c.batch[1..];
  }

  /** What the server discards while polling is the completion of its first SEND, for which it
      never waits. */
  lemma DiscardsOnlySends(w: World, g: nat)
    requires At(w, g) && Polling(w.s) && w.s.cq != []
    ensures w.s.cq[0] == Awaited(w.s) || (w.s.cq[0] == w.s.r + 2 && (w.s.pc.Poll3? || w.s.pc.Poll4?))
  {}

  // ----- runs end

  /** Rounds the client can start. */
  function Budget(count: nat): nat { if count == 0 then 2 else count }

  /** Stages left. */
  function StagesLeft(w: World, g: nat): int { 37 * (Budget(w.count) - w.c.ping) - g }

  /** Completions and turns under way, weighed by the steps they still need. */
  function Pending(w: World): nat {
    (if w.c.pc.Finished? then 0 else 1)
    + 4 * |w.s.sq| + 3 * |w.s.done| + 2 * |w.s.cq| + (if w.s.pc.PostRecv0? then 1 else 0)
    + 4 * w.c.sq + 3 * w.c.done + 2 * |w.c.cq| + |w.c.batch|
  }

  /** What is left to do. */
  function ToDo(w: World, g: nat): int { 16 * StagesLeft(w, g) + Pending(w) }

  lemma ToDoIsNat(w: World, g: nat)
    requires At(w, g)
    ensures ToDo(w, g) >= 0
  {}

  lemma ServerPending(w: World, r: nat, g: nat, w': World)
    requires Enabled(w, ServerStep(r)) && w' == Next(w, ServerStep(r))
    ensures Pending(w') < Pending(w) + 16
    ensures !Moves(w, ServerStep(r), g) ==> Pending(w') < Pending(w)
  {}

  lemma ClientPending(w: World, data: seq<nat>, w': World)
    requires Enabled(w, ClientStep(data)) && w' == Next(w, ClientStep(data))
    ensures Pending(w') < Pending(w) + 16 && (Leaves(w, ClientStep(data)) ==> Pending(w') < Pending(w))
  {}

  lemma NicPending(w: World, step: Step, g: nat, w': World)
    requires Enabled(w, step) && w' == Next(w, step) && !step.ServerStep? && !step.ClientStep?
    ensures Pending(w') < Pending(w) + 16
    ensures !Moves(w, step, g) ==> Pending(w') < Pending(w)
  {}

  /** A step that does not hand the turn on uses up something pending. */
  lemma PendingShrinks(w: World, step: Step, g: nat, w': World)
    requires Enabled(w, step) && w' == Next(w, step)
    ensures Pending(w') < Pending(w) + 16
    ensures !Moves(w, step, g) || Leaves(w, step) ==> Pending(w') < Pending(w)
  {
    match step
    case ServerStep(r) => ServerPending(w, r, g, w');
    case ClientStep(data) => ClientPending(w, data, w');
    case _ => NicPending(w, step, g, w');
  }

  lemma StagesShrink(w: World, step: Step, g: nat, w': World, g': nat)
    requires At(w, g) && Enabled(w, step) && w' == Next(w, step) && g' == Stage(w, step, g)
    ensures StagesLeft(w', g') == StagesLeft(w, g) - (if !Moves(w, step, g) || Leaves(w, step) then 0 else 1)
  {
    if step.ClientStep? {
      RoundTurns(w, step.data, g, w');
    } else {
      SamePing(w, step, g, w');
    }
  }

  lemma RoundTurns(w: World, data: seq<nat>, g: nat, w': World)
    requires At(w, g) && Enabled(w, ClientStep(data)) && w' == Next(w, ClientStep(data))
    ensures w'.count == w.count && w'.c.ping == if g == LAST then w.c.ping + 1 else w.c.ping
  {}

  lemma PingKept(w: World, step: Step, w': World)
    requires Enabled(w, step) && !step.ClientStep? && w' == Next(w, step)
    ensures w'.count == w.count && w'.c.ping == w.c.ping
  {}

  lemma SamePing(w: World, step: Step, g: nat, w': World)
    requires At(w, g) && Enabled(w, step) && !step.ClientStep? && w' == Next(w, step)
    ensures w'.count == w.count && w'.c.ping == w.c.ping && (Moves(w, step, g) ==> g < LAST)
  {
    PingKept(w, step, w');
    if Moves(w, step, g) && !step.ServerExec? { OtherStages(w, step, g); }
  }

  lemma StepWorks(w: World, step: Step, g: nat, w': World, g': nat)
    requires At(w, g) && Enabled(w, step) && w' == Next(w, step) && g' == Stage(w, step, g)
    ensures ToDo(w', g') < ToDo(w, g)
  {
    PendingShrinks(w, step, g, w');
    StagesShrink(w, step, g, w', g');
  }

  lemma StartAt(w: World)
    requires Start(w)
    ensures At(w, 0) && DataAt(w, 0)
  {}

  /** Every step leads from one stage to the same or the next, and leaves less to do. */
  lemma StepGoes(w: World, step: Step, g: nat, w': World) returns (g': nat)
    requires At(w, g) && DataAt(w, g) && Enabled(w, step) && w' == Next(w, step)
    ensures At(w', g') && DataAt(w', g') && ToDo(w', g') < ToDo(w, g) && w'.count == w.count
  {
    g' := Stage(w, step, g);
    StepAt(w, step, g, w', g');
    StepData(w, step, g, w', g');
    StepWorks(w, step, g, w', g');
  }

  /** A run: worlds joined by steps of any threads and queue pairs, in any order. */
  predicate IsRun(ws: seq<World>, steps: seq<Step>) {
    && |ws| == |steps| + 1 && Start(ws[0])
    && forall i {:trigger steps[i]} :: 0 <= i < |steps| ==> Enabled(ws[i], steps[i]) && ws[i + 1] == Next(ws[i], steps[i])
  }

  /** In every run every world is at some stage, and there are at most so many steps. */
  lemma {:induction false} RunAt(ws: seq<World>, steps: seq<Step>, k: nat) returns (g: nat)
    requires IsRun(ws, steps) && k <= |steps|
    ensures At(ws[k], g) && DataAt(ws[k], g) && ws[k].count == ws[0].count
    ensures k <= ToDo(ws[0], 0) - ToDo(ws[k], g)
  {
    if k == 0 {
      g := 0;
      StartAt(ws[0]);
    } else {
      var h := RunAt(ws, steps, k - 1);
      g := StepGoes(ws[k - 1], steps[k - 1], h, ws[k]);
    }
  }

  /** The promises, as one statement about a world. The buffer is wiped before a WRITE, and compared
      only once that WRITE was carried out; READs and WRITEs carry the pings' own contents in order. */
  ghost predicate Safe(w: World) {
    && (w.s.sq != [] && w.s.sq[0].op.Read? ==>
          w.c.pc.WaitGo? && w.c.sem == 0 && w.c.buf == w.c.start && w.s.i == w.c.ping)
    && (w.s.sq != [] && w.s.sq[0].op.Write? ==>
          w.c.pc.WaitEnd? && w.c.sem == 0 && w.s.buf == w.c.start && w.s.i == w.c.ping
          && |w.stored| == w.c.ping && |w.c.buf| == |w.c.start| && AllWiped(w.c.buf))
    && (w.c.pc.Compare? ==> |w.stored| == |w.fetched| == w.c.ping + 1 && w.stored[w.c.ping] == w.c.buf == w.c.start)
    && w.fetched <= w.filled && w.stored <= w.filled
    && !w.c.pc.Failed?
    && (w.c.batch != [] && w.c.batch[0].RecvDone? ==> RecvDone !in w.c.batch[1..] && RecvDone !in w.c.cq)
    && (Polling(w.s) && w.s.cq != [] && w.s.cq[0] != Awaited(w.s) ==> w.s.cq[0] == w.s.r + 2)
  }

  /** They hold throughout every run. */
  lemma RunSafe(ws: seq<World>, steps: seq<Step>, k: nat)
    requires IsRun(ws, steps) && k <= |steps|
    ensures Safe(ws[k])
  {
    var g := RunAt(ws, steps, k);
    var w := ws[k];
    if w.s.sq != [] { OneSidedSafe(w, g); }
    if w.c.batch != [] && w.c.batch[0].RecvDone? { BatchLosesNothing(w, g); }
    if Polling(w.s) && w.s.cq != [] { DiscardsOnlySends(w, g); }
  }

  /** No thread and no queue pair can do anything. */
  ghost predicate Stuck(w: World) { forall step :: !Enabled(w, step) }

  /** The rounds are all done, or the client, told to go on for ever, waits in vain in its second. */
  predicate Ended(w: World) {
    && w.s.pc.Returned? && w.s.i == Rounds(w.count) && w.fetched == w.stored && |w.stored| == Rounds(w.count)
    && (w.count > 0 ==> w.c.sendsSeen == 2 * w.count)
    && if w.count > 0 then w.c.pc.Finished? && w.c.ping == w.count else w.c.pc.WaitGo? && w.c.ping == 1
  }

  lemma StuckEnded(w: World, g: nat)
    requires At(w, g) && DataAt(w, g) && Stuck(w)
    ensures Ended(w) && w.stored <= w.filled && (w.count > 0 ==> w.stored == w.filled)
  {
    assert !Enabled(w, ClientStep([])) && !Enabled(w, ClientExec) && !Enabled(w, ClientComplete);
    assert !Enabled(w, ClientDeliver) && !Enabled(w, TakeBatch(1)) && !Enabled(w, Handle);
    assert !Enabled(w, ServerStep(0)) && !Enabled(w, ServerExec) && !Enabled(w, ServerComplete);
    assert !Enabled(w, ServerDeliver);
  }

  /** Every run is finite, whatever the interleaving, and one that cannot go on has ended well:
      both sides have made exactly `count` rounds, if and only if the count is not 0. */
  lemma RunEnds(ws: seq<World>, steps: seq<Step>)
    requires IsRun(ws, steps)
    ensures |steps| <= 592 * Budget(ws[0].count) + 2
    ensures var w := ws[|steps|];
            Stuck(w) ==> Ended(w) && (w.count > 0 ==> w.stored == w.filled) && (w.c.pc.Finished? && w.c.ping == w.count == w.s.i <==> ws[0].count > 0)
  {
    var g := RunAt(ws, steps, |steps|);
    ToDoIsNat(ws[|steps|], g);
    if Stuck(ws[|steps|]) {
      StuckEnded(ws[|steps|], g);
    }
  }
}
