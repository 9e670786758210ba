/** Hardware-handshake contexts over the ERNIC register file (hw-hs/files/hw_hs.c, rnic.h). */
module HwHandshake {
  import opened BitOps

  type Regs = nat -> Word

  const XRNIC_GLOBAL_REG_OFFSET := 0x100000
  const XRNIC_PER_QP_OFFSET := 0x180000
  const XRNIC_ADV_CONF := 0x100004

  // offsets of the registers of one queue pair
  const QP_CONF := 0x00
  const SNDQ_BUF_BASE_LSB := 0x10
  const CQ_DB_ADDR_LSB := 0x28
  const CQ_DB_ADDR_MSB := 0x2C
  const CQ_HEAD_PTR := 0x30
  const SQ_PROD_IDX := 0x38
  const QUEUE_DEPTH := 0x3C
  const STAT_CUR_SQ_PTR := 0x8C
  const SNDQ_BUF_BASE_MSB := 0xC8

  /** BIT(n) */
  function BitOf(n: nat): Word { seq(32, i => i == n) }

  function QpHwHskDis(): Word { BitOf(4) }
  function QpCqeEn(): Word { BitOf(5) }
  function SwOverRide(): Word { BitOf(0) }
  function Low16(): Word { BitMask(16) }

  const HH_NUM_CTX := 8

  /** Addresses of the registers of queue pair q and of memory region mrn. */
  function QpReg(q: nat, off: nat): nat { XRNIC_PER_QP_OFFSET + off + q * 0x100 }

  function MrReg(mrn: nat, off: nat): nat { off + mrn * 0x100 }

  const QP_SPAN := 0x100_0000   // queue-pair numbers until the 32-bit offsets come round

  lemma Wraps(q: nat, off: nat)
    requires off < 0x100
    ensures var r := q % QP_SPAN;
            QpReg(q, off) % U32 == if r < QP_SPAN - 0x1800 then QpReg(r, off) else QpReg(r, off) - U32
  {
    var a, r := q / QP_SPAN, q % QP_SPAN;
    var rest := if r < QP_SPAN - 0x1800 then QpReg(r, off) else QpReg(r, off) - U32;
    var k := if r < QP_SPAN - 0x1800 then a else a + 1;
    assert QpReg(q, off) == rest + k * U32 && 0 <= rest < U32;
  }

  /** The macros compute 32-bit offsets. Registers of two queue pairs coincide if and only if it is
      the same register and their numbers agree modulo 2^24; those of one queue pair stay above the
      global ones if and only if its number, so reduced, is below 2^24 - 0x1800; those of a memory
      region stay below the global ones if and only if its index is below 4096. */
  lemma NoAliasIff(q: nat, off: nat, p: nat, off': nat, mrn: nat)
    requires off < 0x100 && off' < 0x100 && mrn < QP_SPAN
    ensures QpReg(q, off) % U32 == QpReg(p, off') % U32 <==> q % QP_SPAN == p % QP_SPAN && off == off'
    ensures QpReg(q, off) % U32 >= XRNIC_PER_QP_OFFSET <==> q % QP_SPAN < QP_SPAN - 0x1800
    ensures MrReg(mrn, off) % U32 < XRNIC_GLOBAL_REG_OFFSET <==> mrn < 4096
  {
    Wraps(q, off);
    Wraps(p, off');
  }

  /** Below that number no offset wraps, and the unwrapped addresses used from here on are the
      driver's. */
  lemma NoWrapIff(q: nat, off: nat)
    requires off < 0x100
    ensures QpReg(q, off) % U32 == QpReg(q, off) <==> q < QP_SPAN - 0x1800
  {}

  function Write(regs: Regs, a: nat, v: Word): Regs { (x: nat) => if x == a then v else regs(x) }

  /** What the rest of the system supplies: whether get_xrnic_local finds the ERNIC,
      the address width, the words that lines 122 and 124
      write for queue pair number qp + 1, and the user-mode queue depth and doorbell address of
      each queue pair. */
  datatype Env = Env(present: bool, wide: bool, number: nat -> Word, upper: nat -> Word, userDepth: nat -> Word,
                     dbLow: nat -> Word, dbHigh: nat -> Word)

  // ----- setup_qps

  /** Lines 135-136. */
  function Enabling(v: Word): Word { And(And(v, Not(QpHwHskDis())), Not(QpCqeEn())) }

  /** What register `off` of a queue pair holds after one turn of the loop, into handshake mode or
      out of it, from what it held before. */
  function After(was: Word, on: bool, q: nat, off: nat, depth: Word, env: Env): Word {
    if off == SQ_PROD_IDX || off == STAT_CUR_SQ_PTR || off == CQ_HEAD_PTR then Zero()
    else if off == CQ_DB_ADDR_LSB then (if on then env.number(q) else env.dbLow(q))
    else if off == CQ_DB_ADDR_MSB && env.wide then (if on then env.upper(q) else env.dbHigh(q))
    else if off == QUEUE_DEPTH then Or(And(was, Not(Low16())), if on then And(depth, Low16()) else env.userDepth(q))
    else if off == QP_CONF then (if on then Enabling(was) else Or(was, QpHwHskDis()))
    else was
  }

  /** The register file after one turn; Driver.ProgramOne carries out the writes. */
  function SetupOne(regs: Regs, on: bool, q: nat, depth: Word, env: Env): Regs {
    (a: nat) => if QpReg(q, 0) <= a < QpReg(q, 0x100) then After(regs(a), on, q, a - QpReg(q, 0), depth, env) else regs(a)
  }

  function SetupTo(regs: Regs, on: bool, base: nat, n: nat, depth: Word, env: Env): Regs {
    if n == 0 then regs else SetupOne(SetupTo(regs, on, base, n - 1, depth, env), on, base + n - 1, depth, env)
  }

  function Override(regs: Regs, up: bool): Regs {
    Write(regs, XRNIC_ADV_CONF, if up then Or(regs(XRNIC_ADV_CONF), SwOverRide()) else And(regs(XRNIC_ADV_CONF), Not(SwOverRide())))
  }

  function SetupQps(regs: Regs, on: bool, base: nat, n: nat, depth: Word, env: Env): Regs {
    Override(SetupTo(Override(regs, true), on, base, n, depth, env), false)
  }

  lemma SetupOneExact(regs: Regs, on: bool, q: nat, depth: Word, env: Env, p: nat, off: nat)
    requires off < 0x100
    ensures SetupOne(regs, on, q, depth, env)(QpReg(p, off))
         == if p == q then After(regs(QpReg(p, off)), on, q, off, depth, env) else regs(QpReg(p, off))
  {}

  lemma SetupOneGlobal(regs: Regs, on: bool, q: nat, depth: Word, env: Env, a: nat)
    requires a < XRNIC_PER_QP_OFFSET
    ensures SetupOne(regs, on, q, depth, env)(a) == regs(a)
  {}

  lemma {:induction false} SetupToExact(regs: Regs, on: bool, base: nat, n: nat, depth: Word, env: Env, p: nat, off: nat)
    requires off < 0x100
    ensures SetupTo(regs, on, base, n, depth, env)(QpReg(p, off))
         == if base <= p < base + n then After(regs(QpReg(p, off)), on, p, off, depth, env) else regs(QpReg(p, off))
  {
    if n > 0 {
      var prev := SetupTo(regs, on, base, n - 1, depth, env);
      SetupToExact(regs, on, base, n - 1, depth, env, p, off);
      SetupOneExact(prev, on, base + n - 1, depth, env, p, off);
    }
  }

  lemma {:induction false} SetupToGlobal(regs: Regs, on: bool, base: nat, n: nat, depth: Word, env: Env, a: nat)
    requires a < XRNIC_PER_QP_OFFSET
    ensures SetupTo(regs, on, base, n, depth, env)(a) == regs(a)
  {
    if n > 0 {
      var prev := SetupTo(regs, on, base, n - 1, depth, env);
      SetupToGlobal(regs, on, base, n - 1, depth, env, a);
      SetupOneGlobal(prev, on, base + n - 1, depth, env, a);
    }
  }

  /** setup_qps over any range of queue pairs: exactly what every queue-pair register holds
      afterwards, inside the range and outside it. */
  lemma SetupQpsExact(regs: Regs, on: bool, base: nat, n: nat, depth: Word, env: Env, p: nat, off: nat)
    requires off < 0x100
    ensures SetupQps(regs, on, base, n, depth, env)(QpReg(p, off))
         == if base <= p < base + n then After(regs(QpReg(p, off)), on, p, off, depth, env) else regs(QpReg(p, off))
  {
    SetupToExact(Override(regs, true), on, base, n, depth, env, p, off);
  }

  /** Below the queue pairs only the advanced configuration may change, and only its override bit. */
  lemma SetupQpsGlobal(regs: Regs, on: bool, base: nat, n: nat, depth: Word, env: Env, a: nat)
    requires a < XRNIC_PER_QP_OFFSET
    ensures SetupQps(regs, on, base, n, depth, env)(a) == if a == XRNIC_ADV_CONF then And(regs(a), Not(SwOverRide())) else regs(a)
  {
    SetupToGlobal(Override(regs, true), on, base, n, depth, env, a);
    OverrideUndone(regs(XRNIC_ADV_CONF));
  }

  lemma OverrideUndone(v: Word)
    ensures And(Or(v, SwOverRide()), Not(SwOverRide())) == And(v, Not(SwOverRide()))
  {
    var x, y := And(Or(v, SwOverRide()), Not(SwOverRide())), And(v, Not(SwOverRide()));
    assert forall i :: 0 <= i < 32 ==> x[i] == y[i];
  }

  /** The advanced configuration is restored if and only if the override was off. */
  lemma AdvConfRestoredIff(regs: Regs, on: bool, base: nat, n: nat, depth: Word, env: Env)
    ensures SetupQps(regs, on, base, n, depth, env)(XRNIC_ADV_CONF) == regs(XRNIC_ADV_CONF) <==> !regs(XRNIC_ADV_CONF)[0]
  {
    SetupQpsGlobal(regs, on, base, n, depth, env, XRNIC_ADV_CONF);
    var v := regs(XRNIC_ADV_CONF);
    var u := And(v, Not(SwOverRide()));
    assert forall i :: 0 <= i < 32 ==> u[i] == (v[i] && i != 0);
  }

  /** Only the intended bits change: the configuration keeps every bit but 4 and 5, and the depth
      register its upper half, to which only a user depth of more than 16 bits could add. */
  lemma FieldsKept(v: Word, q: nat, depth: Word, env: Env, i: nat)
    requires i < 32
    ensures After(v, true, q, QP_CONF, depth, env)[i] == (v[i] && i != 4 && i != 5)
    ensures After(v, false, q, QP_CONF, depth, env)[i] == (v[i] || i == 4)
    ensures After(v, true, q, QUEUE_DEPTH, depth, env)[i] == if i < 16 then depth[i] else v[i]
    ensures After(v, false, q, QUEUE_DEPTH, depth, env)[i] == if i < 16 then env.userDepth(q)[i] else v[i] || env.userDepth(q)[i]
  {}

  /** The registers of queue pair p after it was put into handshake mode: pointers zero, the completion
      doorbell carries its number, 16 bits of depth, handshake on and completion entries off. */
  ghost predicate InHandshake(was: Regs, now: Regs, p: nat, depth: Word, env: Env) {
    && (forall off <- {SQ_PROD_IDX, STAT_CUR_SQ_PTR, CQ_HEAD_PTR} :: forall i :: 0 <= i < 32 ==> !now(QpReg(p, off))[i])
    && now(QpReg(p, CQ_DB_ADDR_LSB)) == env.number(p)
    && now(QpReg(p, CQ_DB_ADDR_MSB)) == (if env.wide then env.upper(p) else was(QpReg(p, CQ_DB_ADDR_MSB)))
    && (forall i :: 0 <= i < 32 ==> now(QpReg(p, QUEUE_DEPTH))[i] == if i < 16 then depth[i] else was(QpReg(p, QUEUE_DEPTH))[i])
    && (forall i :: 0 <= i < 32 ==> now(QpReg(p, QP_CONF))[i] == (was(QpReg(p, QP_CONF))[i] && i != 4 && i != 5))
  }

  /** And after it was taken out: pointers zero, the software's own doorbell address and depth back,
      handshake off. */
  ghost predicate OutOfHandshake(was: Regs, now: Regs, p: nat, env: Env) {
    && (forall off <- {SQ_PROD_IDX, STAT_CUR_SQ_PTR, CQ_HEAD_PTR} :: forall i :: 0 <= i < 32 ==> !now(QpReg(p, off))[i])
    && now(QpReg(p, CQ_DB_ADDR_LSB)) == env.dbLow(p)
    && now(QpReg(p, CQ_DB_ADDR_MSB)) == (if env.wide then env.dbHigh(p) else was(QpReg(p, CQ_DB_ADDR_MSB)))
    && (forall i :: 0 <= i < 32 ==>
          now(QpReg(p, QUEUE_DEPTH))[i] == ((i >= 16 && was(QpReg(p, QUEUE_DEPTH))[i]) || env.userDepth(p)[i]))
    && (forall i :: 0 <= i < 32 ==> now(QpReg(p, QP_CONF))[i] == (was(QpReg(p, QP_CONF))[i] || i == 4))
  }

  /** The registers that setup_qps programs. */
  predicate Programmed(off: nat) {
    || off == SQ_PROD_IDX || off == STAT_CUR_SQ_PTR || off == CQ_HEAD_PTR || off == CQ_DB_ADDR_LSB
    || off == CQ_DB_ADDR_MSB || off == QUEUE_DEPTH || off == QP_CONF
  }

  lemma AfterFields(was: Regs, now: Regs, on: bool, p: nat, depth: Word, env: Env)
    requires forall off: nat :: off < 0x100 ==> now(QpReg(p, off)) == After(was(QpReg(p, off)), on, p, off, depth, env)
    ensures if on then InHandshake(was, now, p, depth, env) else OutOfHandshake(was, now, p, env)
    ensures forall off: nat :: off < 0x100 && !Programmed(off) ==> now(QpReg(p, off)) == was(QpReg(p, off))
  {
    assert now(QpReg(p, QP_CONF)) == After(was(QpReg(p, QP_CONF)), on, p, QP_CONF, depth, env);
    assert now(QpReg(p, QUEUE_DEPTH)) == After(was(QpReg(p, QUEUE_DEPTH)), on, p, QUEUE_DEPTH, depth, env);
    forall i: nat | i < 32
      ensures now(QpReg(p, QP_CONF))[i] == After(was(QpReg(p, QP_CONF)), on, p, QP_CONF, depth, env)[i]
    {
      FieldsKept(was(QpReg(p, QP_CONF)), p, depth, env, i);
    }
    forall i: nat | i < 32
      ensures now(QpReg(p, QUEUE_DEPTH))[i] == After(was(QpReg(p, QUEUE_DEPTH)), on, p, QUEUE_DEPTH, depth, env)[i]
    {
      FieldsKept(was(QpReg(p, QUEUE_DEPTH)), p, depth, env, i);
    }
  }

  /** setup_qps, register by register: every queue pair of the range is put into handshake mode or
      taken out of it, nothing else about it changes, and no other queue pair is touched. */
  lemma SetupQpsRegisters(regs: Regs, on: bool, base: nat, n: nat, depth: Word, env: Env, p: nat)
    ensures var now := SetupQps(regs, on, base, n, depth, env);
            if base <= p < base + n then
              && (if on then InHandshake(regs, now, p, depth, env) else OutOfHandshake(regs, now, p, env))
              && forall off: nat :: off < 0x100 && !Programmed(off) ==> now(QpReg(p, off)) == regs(QpReg(p, off))
            else
              forall off: nat :: off < 0x100 ==> now(QpReg(p, off)) == regs(QpReg(p, off))
  {
    var now := SetupQps(regs, on, base, n, depth, env);
    forall off: nat | off < 0x100
      ensures now(QpReg(p, off)) == if base <= p < base + n then After(regs(QpReg(p, off)), on, p, off, depth, env) else regs(QpReg(p, off))
    {
      SetupQpsExact(regs, on, base, n, depth, env, p, off);
    }
    if base <= p < base + n { AfterFields(regs, now, on, p, depth, env); }
  }

  // ----- contexts

  predicate Handshake(regs: Regs, q: nat) { !regs(QpReg(q, QP_CONF))[4] }

  /** setup_qps moves exactly the queue pairs of its range. */
  lemma SetupMode(regs: Regs, on: bool, base: nat, n: nat, depth: Word, env: Env, p: nat)
    ensures Handshake(SetupQps(regs, on, base, n, depth, env), p) <==> if base <= p < base + n then on else Handshake(regs, p)
  {
    SetupQpsExact(regs, on, base, n, depth, env, p, QP_CONF);
    FieldsKept(regs(QpReg(p, QP_CONF)), p, depth, env, 4);
  }

  datatype Ctx = Ctx(qp: nat, depth: Word, valid: bool)

  datatype Round = Round(qp: nat, cnt: nat, depth: Word)   // the part of rcfg that a reset uses

  datatype Dev = Dev(regs: Regs, ctx: seq<Ctx>, rcfg: Round)

  /** struct hh_qpctx_cfg, with sq_base already split into its halves. */
  datatype Cfg = Cfg(idx: nat, qp: nat, baseLow: Word, baseHigh: Word, depth: Word, poll: bool,
                     seqOff: nat, stride: nat, rebind: bool)

  function Pow2(n: nat): nat { if n == 0 then 1 else 2 * Pow2(n - 1) }

  /** The checks of lines 177-196. */
  predicate Accepted(c: Cfg) {
    && c.idx < HH_NUM_CTX
    && (c.poll ==> c.stride < 32 && c.seqOff != 0 && c.seqOff % 4 == 0 && c.seqOff + 4 <= Pow2(c.stride))
  }

  /** A commit is accepted if and only if its slot exists and, when the reply is polled for, the
      sequence number is a whole word of a slot of 8 bytes to 2 GiB, and not its first. */
  lemma AcceptedIff(c: Cfg)
    ensures Accepted(c) <==>
              c.idx < 8 && (!c.poll || (3 <= c.stride <= 31 && exists q: nat :: q >= 1 && c.seqOff == 4 * q && 4 * q + 4 <= Pow2(c.stride)))
  {
    if c.seqOff % 4 == 0 { assert c.seqOff == 4 * (c.seqOff / 4); }
    if c.stride <= 2 { assert Pow2(0) == 1 && Pow2(1) == 2 && Pow2(2) == 4; }
  }

  function AtLeastOne(depth: Word): Word { if depth == Zero() then BitOf(0) else depth }

  function Rebound(regs: Regs, c: Cfg, env: Env): Regs {
    var r := Write(regs, QpReg(c.qp, SNDQ_BUF_BASE_LSB), c.baseLow);
    var r2 := if env.wide then Write(r, QpReg(c.qp, SNDQ_BUF_BASE_MSB), c.baseHigh) else r;
    SetupQps(r2, true, c.qp, 1, AtLeastOne(c.depth), env)
  }

  /** hw_hs_qpctx_commit */
  function Committed(d: Dev, c: Cfg, env: Env): Dev
    requires |d.ctx| == HH_NUM_CTX
  {
    if !Accepted(c) then d
    else d.(regs := if env.present && c.rebind then Rebound(d.regs, c, env) else d.regs,
            ctx := d.ctx[c.idx := Ctx(c.qp, AtLeastOne(c.depth), true)])
  }

  /** hw_hs_config: a commit into slot 0 with rebind, then the round is remembered. */
  function ConfiguredDev(d: Dev, c: Cfg, cnt: nat, env: Env): Dev
    requires |d.ctx| == HH_NUM_CTX
  {
    var c0 := InSlot0(c);
    if Accepted(c0) then Committed(d, c0, env).(rcfg := Round(c.qp, cnt, c.depth)) else d
  }

  /** The loop of hh_reset over the first n slots. */
  function ResetTo(d: Dev, n: nat, env: Env): (r: Dev)
    requires n <= |d.ctx|
    ensures |r.ctx| == |d.ctx| && r.rcfg == d.rcfg && forall i :: n <= i < |d.ctx| ==> r.ctx[i] == d.ctx[i]
  {
    if n == 0 then d
    else
      var e, c := ResetTo(d, n - 1, env), d.ctx[n - 1];
      if c.valid then e.(regs := SetupQps(e.regs, false, c.qp, 1, AtLeastOne(c.depth), env),
                         ctx := e.ctx[n - 1 := c.(valid := false)])
      else e
  }

  predicate AnyValid(ctx: seq<Ctx>, n: nat)
    requires n <= |ctx|
  {
    exists i :: 0 <= i < n && ctx[i].valid
  }

  /** hh_reset */
  function Reset(d: Dev, env: Env): Dev {
    var r := ResetTo(d, |d.ctx|, env);
    if AnyValid(d.ctx, |d.ctx|) then r
    else r.(regs := SetupQps(r.regs, false, if d.rcfg.qp == 0 then 1 else d.rcfg.qp,
                             if d.rcfg.cnt == 0 then 1 else d.rcfg.cnt, AtLeastOne(d.rcfg.depth), env))
  }

  predicate Recorded(ctx: seq<Ctx>, q: nat) { exists i :: 0 <= i < |ctx| && ctx[i].valid && ctx[i].qp == q }

  /** Every queue pair in handshake mode is recorded in a valid slot, or was in it before the first
      call (with registers `start`) and has never been committed since. */
  ghost predicate Inv(d: Dev, start: Regs, touched: set<nat>) {
    && |d.ctx| == HH_NUM_CTX
    && (forall i :: 0 <= i < HH_NUM_CTX && d.ctx[i].valid ==> d.ctx[i].qp in touched)
    && (forall q: nat :: Handshake(d.regs, q) ==> Recorded(d.ctx, q) || (Handshake(start, q) && q !in touched))
  }

  /** Whatever the registers hold, a device without valid slots may start. */
  lemma StartInv(d: Dev)
    requires |d.ctx| == HH_NUM_CTX && forall c <- d.ctx :: !c.valid
    ensures Inv(d, d.regs, {})
  {}

  lemma ReboundMode(regs: Regs, c: Cfg, env: Env, p: nat)
    ensures Handshake(Rebound(regs, c, env), p) <==> p == c.qp || Handshake(regs, p)
  {
    var r := Write(regs, QpReg(c.qp, SNDQ_BUF_BASE_LSB), c.baseLow);
    var r2 := if env.wide then Write(r, QpReg(c.qp, SNDQ_BUF_BASE_MSB), c.baseHigh) else r;
    SetupMode(r2, true, c.qp, 1, AtLeastOne(c.depth), env, p);
  }

  /** The commit drops the only record of another queue pair that is in handshake mode. */
  predicate Loses(d: Dev, c: Cfg)
    requires |d.ctx| == HH_NUM_CTX
  {
    && Accepted(c) && d.ctx[c.idx].valid && d.ctx[c.idx].qp != c.qp && Handshake(d.regs, d.ctx[c.idx].qp)
    && forall i :: 0 <= i < HH_NUM_CTX && i != c.idx ==> !(d.ctx[i].valid && d.ctx[i].qp == d.ctx[c.idx].qp)
  }

  lemma CommitRecords(d: Dev, c: Cfg, env: Env, q: nat)
    requires |d.ctx| == HH_NUM_CTX && Accepted(c) && Recorded(d.ctx, q)
    ensures Recorded(Committed(d, c, env).ctx, q)
       <==> !(d.ctx[c.idx].valid && d.ctx[c.idx].qp == q && q != c.qp
              && forall i :: 0 <= i < HH_NUM_CTX && i != c.idx ==> !(d.ctx[i].valid && d.ctx[i].qp == q))
  {
    var t := Committed(d, c, env).ctx;
    assert t[c.idx].qp == c.qp && t[c.idx].valid;
    assert forall i :: 0 <= i < HH_NUM_CTX && i != c.idx ==> t[i] == d.ctx[i];
  }

  /** The queue pairs ever committed, after one more commit. */
  function Touched(touched: set<nat>, c: Cfg): set<nat> { if Accepted(c) then touched + {c.qp} else touched }

  /** A commit keeps the invariant if and only if it loses no record. */
  lemma CommitKeepsInvIff(d: Dev, c: Cfg, env: Env, start: Regs, touched: set<nat>)
    requires Inv(d, start, touched)
    ensures Inv(Committed(d, c, env), start, Touched(touched, c)) <==> !Loses(d, c)
  {
    if Accepted(c) {
      var t := Committed(d, c, env);
      assert t.ctx[c.idx].qp == c.qp && t.ctx[c.idx].valid;
      forall q: nat
        ensures Handshake(t.regs, q) <==> (env.present && c.rebind && q == c.qp) || Handshake(d.regs, q)
        ensures q == c.qp ==> Recorded(t.ctx, q)
      {
        if c.rebind { ReboundMode(d.regs, c, env, q); }
      }
      forall q: nat | Handshake(d.regs, q) && Recorded(d.ctx, q)
        ensures Recorded(t.ctx, q) || (q == d.ctx[c.idx].qp && Loses(d, c))
      {
        CommitRecords(d, c, env, q);
      }
      if Loses(d, c) {
        CommitRecords(d, c, env, d.ctx[c.idx].qp);
      }
    }
  }

  /** In particular a slot that is free, or is committed again for its own queue pair. */
  lemma OwnSlotKeepsInv(d: Dev, c: Cfg, env: Env, start: Regs, touched: set<nat>)
    requires Inv(d, start, touched) && (c.idx < HH_NUM_CTX && d.ctx[c.idx].valid ==> d.ctx[c.idx].qp == c.qp)
    ensures Inv(Committed(d, c, env), start, Touched(touched, c))
  {
    CommitKeepsInvIff(d, c, env, start, touched);
  }

  /** Every queue-pair register after a commit: a config-only or refused one leaves all alone; a
      rebinding one points its own queue pair at the new ring and programs it, and no other. */
  lemma CommitRegisters(d: Dev, c: Cfg, env: Env, p: nat, off: nat)
    requires |d.ctx| == HH_NUM_CTX && off < 0x100
    ensures Committed(d, c, env).regs(QpReg(p, off)) ==
              if !(Accepted(c) && env.present && c.rebind && p == c.qp) then d.regs(QpReg(p, off))
              else if off == SNDQ_BUF_BASE_LSB then c.baseLow
              else if off == SNDQ_BUF_BASE_MSB && env.wide then c.baseHigh
              else After(d.regs(QpReg(p, off)), true, p, off, AtLeastOne(c.depth), env)
  {
    if Accepted(c) && env.present && c.rebind {
      var r := Write(d.regs, QpReg(c.qp, SNDQ_BUF_BASE_LSB), c.baseLow);
      var r2 := if env.wide then Write(r, QpReg(c.qp, SNDQ_BUF_BASE_MSB), c.baseHigh) else r;
      SetupQpsExact(r2, true, c.qp, 1, AtLeastOne(c.depth), env, p, off);
    }
  }

  /** The rebound queue pair is in handshake mode on its new ring. */
  lemma CommitRebinds(d: Dev, c: Cfg, env: Env)
    requires |d.ctx| == HH_NUM_CTX && Accepted(c) && env.present && c.rebind
    ensures var now := Committed(d, c, env).regs;
            && InHandshake(d.regs, now, c.qp, AtLeastOne(c.depth), env)
            && now(QpReg(c.qp, SNDQ_BUF_BASE_LSB)) == c.baseLow
            && (env.wide ==> now(QpReg(c.qp, SNDQ_BUF_BASE_MSB)) == c.baseHigh)
            && (forall i :: 0 <= i < 16 ==> now(QpReg(c.qp, QUEUE_DEPTH))[i] == if c.depth == Zero() then i == 0 else c.depth[i])
  {
    var r := Write(d.regs, QpReg(c.qp, SNDQ_BUF_BASE_LSB), c.baseLow);
    var r2 := if env.wide then Write(r, QpReg(c.qp, SNDQ_BUF_BASE_MSB), c.baseHigh) else r;
    SetupQpsRegisters(r2, true, c.qp, 1, AtLeastOne(c.depth), env, c.qp);
    CommitRegisters(d, c, env, c.qp, SNDQ_BUF_BASE_LSB);
    CommitRegisters(d, c, env, c.qp, SNDQ_BUF_BASE_MSB);
  }

  /** So a config-only commit moves no producer index, and a rebinding one only its own, to 0. */
  lemma CommitProducer(d: Dev, c: Cfg, env: Env, p: nat)
    requires |d.ctx| == HH_NUM_CTX
    ensures !c.rebind ==> Committed(d, c, env).regs == d.regs
    ensures Committed(d, c, env).regs(QpReg(p, SQ_PROD_IDX))
         == if Accepted(c) && env.present && c.rebind && p == c.qp then Zero() else d.regs(QpReg(p, SQ_PROD_IDX))
  {
    CommitRegisters(d, c, env, p, SQ_PROD_IDX);
  }

  /** The commit that hw_hs_config makes. */
  function InSlot0(c: Cfg): Cfg { c.(idx := 0, rebind := true) }

  lemma ConfigKeepsInvIff(d: Dev, c: Cfg, cnt: nat, env: Env, start: Regs, touched: set<nat>)
    requires Inv(d, start, touched)
    ensures Inv(ConfiguredDev(d, c, cnt, env), start, Touched(touched, InSlot0(c))) <==> !Loses(d, InSlot0(c))
  {
    CommitKeepsInvIff(d, InSlot0(c), env, start, touched);
  }

  /** A refused commit changes nothing. An accepted one records the queue pair in its slot, with a depth
      that is never zero, and leaves the other slots. */
  lemma CommitRecordsSlot(d: Dev, c: Cfg, env: Env)
    requires |d.ctx| == HH_NUM_CTX
    ensures Committed(d, c, env).rcfg == d.rcfg && (!Accepted(c) ==> Committed(d, c, env) == d)
    ensures Accepted(c) ==>
            var t := Committed(d, c, env).ctx;
            && |t| == HH_NUM_CTX && t[c.idx].valid && t[c.idx].qp == c.qp
            && t[c.idx].depth == (if forall i :: 0 <= i < 32 ==> !c.depth[i] then BitOf(0) else c.depth)
            && forall i :: 0 <= i < HH_NUM_CTX && i != c.idx ==> t[i] == d.ctx[i]
  {
    if forall i :: 0 <= i < 32 ==> !c.depth[i] { assert c.depth == Zero(); }
  }

  /** What a configuration is remembered for: after it, a second reset in a row takes the whole range
      of the round out of handshake mode. */
  lemma ConfigIsRemembered(d: Dev, c: Cfg, cnt: nat, env: Env, q: nat)
    requires |d.ctx| == HH_NUM_CTX && Accepted(InSlot0(c)) && c.qp > 0 && c.qp <= q < c.qp + cnt
    ensures !Handshake(Reset(Reset(ConfiguredDev(d, c, cnt, env), env), env).regs, q)
  {
    var e := ConfiguredDev(d, c, cnt, env);
    ResetMode(e, env, q);
    ResetMode(Reset(e, env), env, q);
    assert e.ctx[0].valid;
  }

  /** After the first n slots: their queue pairs are out, the others as before. */
  lemma {:induction false} ResetToMode(d: Dev, n: nat, env: Env, q: nat)
    requires n <= |d.ctx|
    ensures var r := ResetTo(d, n, env);
            && (Handshake(r.regs, q) <==> Handshake(d.regs, q) && forall i :: 0 <= i < n ==> !(d.ctx[i].valid && d.ctx[i].qp == q))
            && forall i :: 0 <= i < |d.ctx| ==> r.ctx[i].valid == (d.ctx[i].valid && i >= n)
  {
    if n > 0 {
      ResetToMode(d, n - 1, env, q);
      var e, c := ResetTo(d, n - 1, env), d.ctx[n - 1];
      SetupMode(e.regs, false, c.qp, 1, AtLeastOne(c.depth), env, q);
    }
  }

  /** The range a reset falls back to when no slot is valid. */
  predicate InRound(r: Round, q: nat) {
    var base := if r.qp == 0 then 1 else r.qp;
    base <= q < base + if r.cnt == 0 then 1 else r.cnt
  }

  /** A reset leaves queue pair q in handshake mode if and only if it was so and nothing names it. */
  lemma ResetMode(d: Dev, env: Env, q: nat)
    ensures Handshake(Reset(d, env).regs, q)
       <==> Handshake(d.regs, q) && !Recorded(d.ctx, q) && (AnyValid(d.ctx, |d.ctx|) || !InRound(d.rcfg, q))
    ensures forall i :: 0 <= i < |d.ctx| ==> i < |Reset(d, env).ctx| && !Reset(d, env).ctx[i].valid
  {
    ResetToMode(d, |d.ctx|, env, q);
    var r := ResetTo(d, |d.ctx|, env);
    SetupMode(r.regs, false, if d.rcfg.qp == 0 then 1 else d.rcfg.qp,
              if d.rcfg.cnt == 0 then 1 else d.rcfg.cnt, AtLeastOne(d.rcfg.depth), env, q);
  }

  /** After a reset no queue pair that was ever committed is in handshake mode, no slot is valid,
      and a queue pair left in handshake mode was so before the first call. */
  lemma ResetClears(d: Dev, env: Env, start: Regs, touched: set<nat>)
    requires Inv(d, start, touched)
    ensures Inv(Reset(d, env), start, touched) && forall c <- Reset(d, env).ctx :: !c.valid
    ensures forall q: nat :: Handshake(Reset(d, env).regs, q) ==> q !in touched && Handshake(start, q)
  {
    forall q: nat
      ensures Handshake(Reset(d, env).regs, q) ==> q !in touched && Handshake(start, q)
    {
      ResetMode(d, env, q);
    }
    ResetMode(d, env, 0);
  }

  /** What losing a record means: the queue pair stays in handshake mode even after a reset. */
  lemma LostSurvivesReset(d: Dev, c: Cfg, env: Env)
    requires |d.ctx| == HH_NUM_CTX && Loses(d, c)
    ensures Handshake(Reset(Committed(d, c, env), env).regs, d.ctx[c.idx].qp)
  {
    var q, t := d.ctx[c.idx].qp, Committed(d, c, env);
    CommitRecords(d, c, env, q);
    if c.rebind { ReboundMode(d.regs, c, env, q); }
    assert t.ctx[c.idx].valid;
    ResetMode(t, env, q);
  }

  // ----- every sequence of calls

  datatype Call = Commit(c: Cfg) | Config(c: Cfg, cnt: nat) | ResetAll

  /** The call overwrites the only record of a queue pair in handshake mode. */
  predicate LosesCall(d: Dev, call: Call)
    requires |d.ctx| == HH_NUM_CTX
  {
    match call
    case Commit(c) => Loses(d, c)
    case Config(c, _) => Loses(d, InSlot0(c))
    case ResetAll => false
  }

  function Apply(d: Dev, call: Call, env: Env): Dev
    requires |d.ctx| == HH_NUM_CTX
  {
    match call
    case Commit(c) => Committed(d, c, env)
    case Config(c, cnt) => ConfiguredDev(d, c, cnt, env)
    case ResetAll => Reset(d, env)
  }

  /** The queue pairs that the first k calls committed. */
  function TouchedBy(calls: seq<Call>, k: nat): set<nat>
    requires k <= |calls|
  {
    if k == 0 then {}
    else
      match calls[k - 1]
      case Commit(c) => Touched(TouchedBy(calls, k - 1), c)
      case Config(c, _) => Touched(TouchedBy(calls, k - 1), InSlot0(c))
      case ResetAll => TouchedBy(calls, k - 1)
  }

  ghost predicate IsRun(ds: seq<Dev>, calls: seq<Call>, env: Env) {
    && |ds| == |calls| + 1 && (forall i :: 0 <= i < |ds| ==> |ds[i].ctx| == HH_NUM_CTX)
    && (forall i :: 0 <= i < |calls| ==> ds[i + 1] == Apply(ds[i], calls[i], env))
    && (forall c <- ds[0].ctx :: !c.valid)
  }

  lemma StepKeepsInvIff(ds: seq<Dev>, calls: seq<Call>, env: Env, k: nat)
    requires IsRun(ds, calls, env) && k < |calls| && Inv(ds[k], ds[0].regs, TouchedBy(calls, k))
    ensures Inv(ds[k + 1], ds[0].regs, TouchedBy(calls, k + 1)) <==> !LosesCall(ds[k], calls[k])
  {
    var d, t := ds[k], TouchedBy(calls, k);
    match calls[k]
    case Commit(c) => CommitKeepsInvIff(d, c, env, ds[0].regs, t);
    case Config(c, cnt) => ConfigKeepsInvIff(d, c, cnt, env, ds[0].regs, t);
    case ResetAll => ResetClears(d, env, ds[0].regs, t);
  }

  /** The invariant holds up to the n-th state. */
  ghost predicate Sound(ds: seq<Dev>, calls: seq<Call>, env: Env, n: nat)
    requires IsRun(ds, calls, env) && n <= |calls|
  {
    Inv(ds[n], ds[0].regs, TouchedBy(calls, n)) && (n > 0 ==> Sound(ds, calls, env, n - 1))
  }

  /** From any register file and no valid slot: as long as no call loses a record the invariant
      holds, and it fails as soon as one does. */
  lemma {:induction false} RunSoundIff(ds: seq<Dev>, calls: seq<Call>, env: Env, n: nat)
    requires IsRun(ds, calls, env) && n <= |calls|
    ensures Sound(ds, calls, env, n) <==> forall k :: 0 <= k < n ==> !LosesCall(ds[k], calls[k])
  {
    if n == 0 {
      StartInv(ds[0]);
    } else {
      RunSoundIff(ds, calls, env, n - 1);
      if Sound(ds, calls, env, n - 1) {
        StepKeepsInvIff(ds, calls, env, n - 1);
      }
    }
  }

  /** So in a run without such a call, a reset leaves in handshake mode no queue pair that any call
      committed; and none at all if there was none before the first call. */
  lemma RunResetClears(ds: seq<Dev>, calls: seq<Call>, env: Env, n: nat)
    requires IsRun(ds, calls, env) && n < |calls| && calls[n].ResetAll?
    requires forall k :: 0 <= k < n ==> !LosesCall(ds[k], calls[k])
    ensures forall q: nat :: Handshake(ds[n + 1].regs, q) ==> q !in TouchedBy(calls, n) && Handshake(ds[0].regs, q)
  {
    RunSoundIff(ds, calls, env, n);
    ResetClears(ds[n], env, ds[0].regs, TouchedBy(calls, n));
  }

  // ----- the driver

  /** Register files agree at every address. */
  ghost predicate Same(r: Regs, s: Regs) { forall a: nat :: r(a) == s(a) }

  ghost predicate Like(d: Dev, e: Dev) { Same(d.regs, e.regs) && d.ctx == e.ctx && d.rcfg == e.rcfg }

  lemma SetupOneSame(r: Regs, s: Regs, on: bool, q: nat, depth: Word, env: Env)
    requires Same(r, s)
    ensures Same(SetupOne(r, on, q, depth, env), SetupOne(s, on, q, depth, env))
  {}

  lemma {:induction false} SetupToSame(r: Regs, s: Regs, on: bool, base: nat, n: nat, depth: Word, env: Env)
    requires Same(r, s)
    ensures Same(SetupTo(r, on, base, n, depth, env), SetupTo(s, on, base, n, depth, env))
  {
    if n > 0 {
      SetupToSame(r, s, on, base, n - 1, depth, env);
      SetupOneSame(SetupTo(r, on, base, n - 1, depth, env), SetupTo(s, on, base, n - 1, depth, env), on, base + n - 1, depth, env);
    }
  }

  lemma SetupQpsSame(r: Regs, s: Regs, on: bool, base: nat, n: nat, depth: Word, env: Env)
    requires Same(r, s)
    ensures Same(SetupQps(r, on, base, n, depth, env), SetupQps(s, on, base, n, depth, env))
  {
    SetupToSame(Override(r, true), Override(s, true), on, base, n, depth, env);
  }

  class Driver {
    var regs: Regs
    var ctx: seq<Ctx>
    var rcfg: Round
    const env: Env

    ghost function View(): Dev reads this { Dev(regs, ctx, rcfg) }

    /** xib_iow32 */
    method Iow(a: nat, v: Word)
      modifies this`regs
      ensures regs == Write(old(regs), a, v)
    {
      regs := Write(regs, a, v);
    }

    /** Lines 116-119. */
    method ZeroPointers(q: nat)
      modifies this`regs
      ensures forall a: nat :: regs(a) ==
                if a == QpReg(q, SQ_PROD_IDX) || a == QpReg(q, STAT_CUR_SQ_PTR) || a == QpReg(q, CQ_HEAD_PTR) then Zero()
                else old(regs)(a)
    {
      Iow(QpReg(q, SQ_PROD_IDX), Zero());
      Iow(QpReg(q, STAT_CUR_SQ_PTR), Zero());
      Iow(QpReg(q, CQ_HEAD_PTR), Zero());
    }

    method ProgramDoorbell(q: nat, low: Word, high: Word)
      modifies this`regs
      ensures forall a: nat :: regs(a) ==
                if a == QpReg(q, CQ_DB_ADDR_LSB) then low
                else if a == QpReg(q, CQ_DB_ADDR_MSB) && env.wide then high
                else old(regs)(a)
    {
      Iow(QpReg(q, CQ_DB_ADDR_LSB), low);
      if env.wide {
        Iow(QpReg(q, CQ_DB_ADDR_MSB), high);
      }
    }

    method ProgramDepth(q: nat, depth: Word)
      modifies this`regs
      ensures forall a: nat :: regs(a) ==
                if a == QpReg(q, QUEUE_DEPTH) then Or(And(old(regs)(a), Not(Low16())), depth) else old(regs)(a)
    {
      var val := And(regs(QpReg(q, QUEUE_DEPTH)), Not(Low16()));
      Iow(QpReg(q, QUEUE_DEPTH), Or(val, depth));
    }

    /** Lines 116-156: the writes for one queue pair, in the driver's order. */
    method ProgramOne(on: bool, q: nat, depth: Word)
      modifies this`regs
      ensures Same(regs, SetupOne(old(regs), on, q, depth, env))
    {
      ZeroPointers(q);
      if on {
        ProgramDoorbell(q, env.number(q), env.upper(q));
        ProgramDepth(q, And(depth, Low16()));
        Iow(QpReg(q, QP_CONF), Enabling(regs(QpReg(q, QP_CONF))));
      } else {
        ProgramDepth(q, env.userDepth(q));
        ProgramDoorbell(q, env.dbLow(q), env.dbHigh(q));
        Iow(QpReg(q, QP_CONF), Or(regs(QpReg(q, QP_CONF)), QpHwHskDis()));
      }
    }

    /** setup_qps */
    method ProgramQps(on: bool, base: nat, cnt: nat, depth: Word)
      modifies this`regs
      ensures Same(regs, SetupQps(old(regs), on, base, cnt, depth, env))
    {
      Iow(XRNIC_ADV_CONF, Or(regs(XRNIC_ADV_CONF), SwOverRide()));
      ghost var start := regs;
      var i := 0;
      while i < cnt
        invariant 0 <= i <= cnt && Same(regs, SetupTo(start, on, base, i, depth, env))
      {
        SetupOneSame(regs, SetupTo(start, on, base, i, depth, env), on, base + i, depth, env);
        ProgramOne(on, base + i, depth);
        i := i + 1;
      }
      Iow(XRNIC_ADV_CONF, And(regs(XRNIC_ADV_CONF), Not(SwOverRide())));
    }

    /** hw_hs_qpctx_commit; false is -EINVAL. */
    method QpctxCommit(c: Cfg) returns (ok: bool)
      requires |ctx| == HH_NUM_CTX
      modifies this`regs, this`ctx
      ensures ok == Accepted(c) && Like(View(), Committed(old(View()), c, env))
    {
      var depth := AtLeastOne(c.depth);
      if c.idx >= HH_NUM_CTX {
        return false;
      }
      if c.poll {
        if c.stride >= 32 {
          return false;
        }
        var slot := Pow2(c.stride);
        if c.seqOff == 0 || c.seqOff % 4 != 0 || c.seqOff + 4 > slot {
          return false;
        }
      }
      if env.present && c.rebind {
        Iow(QpReg(c.qp, SNDQ_BUF_BASE_LSB), c.baseLow);
        if env.wide {
          Iow(QpReg(c.qp, SNDQ_BUF_BASE_MSB), c.baseHigh);
        }
        ProgramQps(true, c.qp, 1, depth);
      }
      ctx := ctx[c.idx := Ctx(c.qp, depth, true)];
      return true;
    }

    /** hw_hs_config */
    method Config(c: Cfg, cnt: nat) returns (ok: bool)
      requires |ctx| == HH_NUM_CTX
      modifies this`regs, this`ctx, this`rcfg
      ensures ok == Accepted(InSlot0(c)) && Like(View(), ConfiguredDev(old(View()), c, cnt, env))
    {
      ok := QpctxCommit(InSlot0(c));
      if ok {
        rcfg := Round(c.qp, cnt, c.depth);
      }
    }

    /** hh_reset, which reads the ERNIC's register base without asking whether there is one. */
    method ResetEngine()
      requires |ctx| == HH_NUM_CTX && env.present
      modifies this`regs, this`ctx
      ensures Like(View(), Reset(old(View()), env))
    {
      ghost var d := View();
      var i, any := 0, false;
      while i < HH_NUM_CTX
        invariant 0 <= i <= HH_NUM_CTX == |ctx| && rcfg == d.rcfg
        invariant Like(View(), ResetTo(d, i, env)) && any == AnyValid(d.ctx, i)
      {
        if ctx[i].valid {
          ghost var e := ResetTo(d, i, env);
          SetupQpsSame(regs, e.regs, false, ctx[i].qp, 1, AtLeastOne(ctx[i].depth), env);
          ProgramQps(false, ctx[i].qp, 1, AtLeastOne(ctx[i].depth));
          ctx := ctx[i := ctx[i].(valid := false)];
          any := true;
        }
        i := i + 1;
      }
      if !any {
        var cnt := if rcfg.cnt == 0 then 1 else rcfg.cnt;
        var base := if rcfg.qp == 0 then 1 else rcfg.qp;
        SetupQpsSame(regs, ResetTo(d, i, env).regs, false, base, cnt, AtLeastOne(rcfg.depth), env);
        ProgramQps(false, base, cnt, AtLeastOne(rcfg.depth));
      }
    }
  }
}
