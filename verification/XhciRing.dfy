/** usb_xhci.c: a transfer or command ring, written store by store while the controller reads it.

    A ring has 63 slots for TRBs and a Link TRB. A TRB belongs to the controller when its
    cycle bit equals the controller's own cycle state (xHCI 1.2 sections 4.9.2 and 4.11.5.1).
    The stores of one TRB before the barrier may happen in any order; the word with the cycle
    bit is stored last. The controller reads the four words one at a time, that word first. */
module XhciRing {
  import opened Bytes

  const USABLE := 63
  const RING_SIZE := 64
  /** TRB_TYPE(6) with the Toggle Cycle flag: a Link TRB without its cycle bit. */
  const LINK_CONTROL := 6 * 1024 + 2

  datatype Trb = Trb(a: Word, b: Word, c: Word, d: Word)

  /** The cycle bit of every TRB written in lap `lap`; lap -1 stands for zeroed memory. */
  function Bit(lap: int): int {
    1 - lap % 2
  }

  function CycleOf(t: Trb): int {
    t.d % 2
  }

  function Word3(t: Trb, w: int): Word {
    if w == 0 then t.a else if w == 1 then t.b else t.c
  }

  function WithWord(t: Trb, w: int, v: Word): Trb {
    if w == 0 then t.(a := v) else if w == 1 then t.(b := v) else t.(c := v)
  }

  const BEFORE_BARRIER: set<int> := {0, 1, 2}

  datatype Phase =
    | Idle
    | Linking(todo: set<int>)  // words of the Link TRB still to store
    | Filling(todo: set<int>)  // words of the new TRB still to store

  datatype Reader =
    | Looking
    | Reading(left: set<int>, got: Trb)  // words of the TRB still to read

  /** The ring, what the driver and the controller are about to do, and what has been handed
      over so far. `lap` and `clap` count the wraps of each side. */
  datatype State = State(mem: seq<Trb>, base: Word, next: nat, cycle: int, phase: Phase, current: Trb,
                         deq: nat, ccs: int, reader: Reader,
                         sent: seq<Trb>, seen: seq<Trb>, lap: nat, clap: nat)

  /** ring_init. */
  predicate Init(s: State) {
    && s.mem == seq(RING_SIZE, i => Trb(0, 0, 0, 0))
    && s.next == 0 && s.cycle == 1 && s.phase == Idle && s.deq == 0 && s.ccs == 1 && s.reader == Looking
    && s.sent == [] && s.seen == [] && s.lap == 0 && s.clap == 0
  }

  // ------------------------------------------------------------ the driver

  /** enqueue() is entered while fewer than 63 TRBs are outstanding; `t.d` has no cycle bit. */
  predicate Begin(s: State, t: Trb, z: State) {
    && s.phase == Idle && |s.sent| - |s.seen| < USABLE && t.d % 2 == 0
    && z == s.(current := t, phase := if s.next == USABLE then Linking(BEFORE_BARRIER) else Filling(BEFORE_BARRIER))
  }

  function LinkWord(s: State, w: int): Word {
    if w == 0 then s.base else 0
  }

  predicate StoreLinkWord(s: State, w: int, z: State) {
    && s.phase.Linking? && w in s.phase.todo && |s.mem| == RING_SIZE
    && z == s.(mem := s.mem[USABLE := WithWord(s.mem[USABLE], w, LinkWord(s, w))], phase := Linking(s.phase.todo - {w}))
  }

  predicate StoreLinkCycle(s: State, z: State) {
    && s.phase.Linking? && s.phase.todo == {} && |s.mem| == RING_SIZE && 0 <= s.cycle <= 1
    && z == s.(mem := s.mem[USABLE := s.mem[USABLE].(d := LINK_CONTROL + s.cycle)],
               next := 0, cycle := 1 - s.cycle, phase := Filling(BEFORE_BARRIER), lap := s.lap + 1)
  }

  predicate StoreWord(s: State, w: int, z: State) {
    && s.phase.Filling? && w in s.phase.todo && s.next < |s.mem|
    && z == s.(mem := s.mem[s.next := WithWord(s.mem[s.next], w, Word3(s.current, w))], phase := Filling(s.phase.todo - {w}))
  }

  predicate StoreCycle(s: State, z: State) {
    && s.phase.Filling? && s.phase.todo == {} && s.next < |s.mem| && 0 <= s.cycle <= 1 && s.current.d + s.cycle < U32
    && z == s.(mem := s.mem[s.next := s.mem[s.next].(d := s.current.d + s.cycle)], next := s.next + 1, phase := Idle,
               sent := s.sent + [s.current.(d := s.current.d + s.cycle)])
  }

  // ------------------------------------------------------------ the controller

  /** It looks at the word with the cycle bit; only its own TRBs are read or followed. In the last
      slot it goes on only by a Link TRB that leads to the start of the ring, and it toggles its
      cycle state only if that TRB says so. */
  predicate Look(s: State, z: State) {
    && s.reader == Looking && s.deq < |s.mem| && s.mem[s.deq].d % 2 == s.ccs
    && if s.deq == USABLE then LeadsBack(s) && z == Wrapped(s)
       else z == s.(reader := Reading(BEFORE_BARRIER, Trb(0, 0, 0, s.mem[s.deq].d)))
  }

  /** What stands in the last slot is a Link TRB (type 6), and its segment pointer, in two words, is the ring. */
  predicate LeadsBack(s: State) {
    |s.mem| == 64 && s.mem[63].d / 1024 % 64 == 6 && s.mem[63].a == s.base && s.mem[63].b == 0
  }

  /** The controller at the start again; bit 1 of a Link TRB is its Toggle Cycle flag. */
  function Wrapped(s: State): State {
    s.(deq := 0, ccs := if |s.mem| == 64 && s.mem[63].d / 2 % 2 == 1 then 1 - s.ccs else s.ccs, clap := s.clap + 1)
  }

  predicate ReadWord(s: State, w: int, z: State) {
    && s.reader.Reading? && w in s.reader.left && s.deq < |s.mem|
    && z == s.(reader := Reading(s.reader.left - {w}, WithWord(s.reader.got, w, Word3(s.mem[s.deq], w))))
  }

  predicate Finish(s: State, z: State) {
    && s.reader.Reading? && s.reader.left == {}
    && z == s.(seen := s.seen + [s.reader.got], deq := s.deq + 1, reader := Looking)
  }

  ghost predicate Step(s: State, z: State) {
    || (exists t :: Begin(s, t, z)) || (exists w :: StoreLinkWord(s, w, z)) || StoreLinkCycle(s, z)
    || (exists w :: StoreWord(s, w, z)) || StoreCycle(s, z)
    || Look(s, z) || (exists w :: ReadWord(s, w, z)) || Finish(s, z)
  }

  // ------------------------------------------------------------ the invariant

  /** Where each side is, and how far apart they may be. */
  ghost predicate Positions(s: State) {
    && |s.mem| == RING_SIZE
    && |s.sent| == USABLE * s.lap + s.next && s.next <= USABLE && s.cycle == Bit(s.lap)
    && |s.seen| == USABLE * s.clap + s.deq && s.deq <= USABLE && s.ccs == Bit(s.clap)
    && |s.seen| <= |s.sent| <= |s.seen| + USABLE
    && s.clap <= s.lap <= s.clap + 1
    && (s.phase != Idle ==> |s.sent| < |s.seen| + USABLE && s.current.d % 2 == 0)
    && (s.phase.Linking? ==> s.next == USABLE && s.lap == s.clap && s.phase.todo <= BEFORE_BARRIER)
    && (s.phase.Filling? ==> s.next < USABLE && s.phase.todo <= BEFORE_BARRIER)
    && (s.reader.Reading? ==> |s.seen| < |s.sent| && s.deq < USABLE && s.reader.left <= BEFORE_BARRIER)
  }

  /** Slots before the driver's are in this lap, the others still in the last one. */
  ghost predicate Cycles(s: State)
    requires Positions(s)
  {
    && (forall j :: 0 <= j < USABLE ==> CycleOf(s.mem[j]) == if j < s.next then Bit(s.lap) else Bit(s.lap - 1))
    && CycleOf(s.mem[USABLE]) == Bit(s.lap - 1)
  }

  /** Every TRB that was sent and not yet taken is in its slot, whole. */
  ghost predicate Whole(s: State)
    requires Positions(s)
  {
    && (forall j :: 0 <= j < s.next ==> s.mem[j] == s.sent[USABLE * s.lap + j])
    && (s.lap > 0 ==> forall j :: s.next <= j < USABLE && |s.seen| <= USABLE * (s.lap - 1) + j ==>
          s.mem[j] == s.sent[USABLE * (s.lap - 1) + j])
    && (s.lap > s.clap ==> s.mem[USABLE] == Trb(s.base, 0, 0, 6146 + Bit(s.clap)))
  }

  /** What has been stored of the TRB being enqueued, and of the Link TRB. */
  ghost predicate Stored(s: State)
    requires Positions(s)
  {
    && (s.phase.Filling? ==> forall w :: w in BEFORE_BARRIER - s.phase.todo ==> Word3(s.mem[s.next], w) == Word3(s.current, w))
    && (s.phase.Linking? ==> forall w :: w in BEFORE_BARRIER - s.phase.todo ==> Word3(s.mem[USABLE], w) == LinkWord(s, w))
  }

  /** What has been read so far is of the TRB to be taken next. */
  ghost predicate Read(s: State)
    requires Positions(s)
  {
    && s.seen == s.sent[..|s.seen|]
    && (s.reader.Reading? ==>
          s.reader.got.d == s.sent[|s.seen|].d &&
          forall w :: w in BEFORE_BARRIER - s.reader.left ==> Word3(s.reader.got, w) == Word3(s.sent[|s.seen|], w))
  }

  ghost predicate Inv(s: State) {
    Positions(s) && Cycles(s) && Whole(s) && Stored(s) && Read(s)
  }

  lemma InitInv(s: State)
    requires Init(s)
    ensures Inv(s)
  {
  }

  lemma BitFlips(lap: int)
    ensures Bit(lap) == 1 - Bit(lap - 1) && 0 <= Bit(lap) <= 1
  {
  }

  /** The slot the controller is at: its own exactly when something is outstanding. */
  lemma Ownership(s: State)
    requires Inv(s)
    ensures s.deq < USABLE ==> (CycleOf(s.mem[s.deq]) == s.ccs <==> |s.seen| < |s.sent|)
    ensures s.deq < USABLE && |s.seen| < |s.sent| ==> s.mem[s.deq] == s.sent[|s.seen|]
    ensures s.deq == USABLE ==> (CycleOf(s.mem[s.deq]) == s.ccs <==> s.lap > s.clap)
    ensures s.deq == USABLE && s.lap > s.clap ==> LeadsBack(s) && Wrapped(s).ccs == 1 - s.ccs
  {
    BitFlips(s.lap);
    if s.lap == s.clap + 1 && s.deq < USABLE {
      assert s.deq < s.next ==> |s.sent| > |s.seen| + USABLE;
    }
  }

  lemma BeginInv(s: State, t: Trb, z: State)
    requires Inv(s) && Begin(s, t, z)
    ensures Inv(z)
  {
  }

  lemma StoreLinkWordInv(s: State, w: int, z: State)
    requires Inv(s) && StoreLinkWord(s, w, z)
    ensures Inv(z)
  {
    forall u | u in BEFORE_BARRIER - z.phase.todo ensures Word3(z.mem[USABLE], u) == LinkWord(z, u) {
      assert u == w || Word3(s.mem[USABLE], u) == LinkWord(s, u);
    }
  }

  lemma LinkBits(cycle: int)
    requires 0 <= cycle <= 1
    ensures (LINK_CONTROL + cycle) % 2 == cycle && LINK_CONTROL + cycle == 6146 + cycle < U32
  {
  }

  lemma StoreLinkCycleInv(s: State, z: State)
    requires Inv(s) && StoreLinkCycle(s, z)
    ensures Inv(z)
  {
    LinkBits(s.cycle);
    assert 0 in BEFORE_BARRIER - s.phase.todo && 1 in BEFORE_BARRIER - s.phase.todo && 2 in BEFORE_BARRIER - s.phase.todo;
    assert Word3(s.mem[USABLE], 0) == s.base && Word3(s.mem[USABLE], 1) == 0 && Word3(s.mem[USABLE], 2) == 0;
  }

  lemma StoreWordInv(s: State, w: int, z: State)
    requires Inv(s) && StoreWord(s, w, z)
    ensures Inv(z)
  {
  }

  lemma StoreCycleInv(s: State, z: State)
    requires Inv(s) && StoreCycle(s, z)
    ensures Inv(z)
  {
    assert 0 in BEFORE_BARRIER - s.phase.todo && 1 in BEFORE_BARRIER - s.phase.todo && 2 in BEFORE_BARRIER - s.phase.todo;
    assert Word3(s.mem[s.next], 0) == s.current.a && Word3(s.mem[s.next], 1) == s.current.b && Word3(s.mem[s.next], 2) == s.current.c;
    assert z.mem[s.next] == s.current.(d := s.current.d + s.cycle);
  }

  lemma LookInv(s: State, z: State)
    requires Inv(s) && Look(s, z)
    ensures Inv(z)
  {
    Ownership(s);
  }

  lemma ReadWordInv(s: State, w: int, z: State)
    requires Inv(s) && ReadWord(s, w, z)
    ensures Inv(z)
  {
    Ownership(s);
  }

  lemma FinishInv(s: State, z: State)
    requires Inv(s) && Finish(s, z)
    ensures Inv(z)
  {
    assert 0 in BEFORE_BARRIER - s.reader.left && 1 in BEFORE_BARRIER - s.reader.left && 2 in BEFORE_BARRIER - s.reader.left;
    assert Word3(s.reader.got, 0) == Word3(s.sent[|s.seen|], 0) && Word3(s.reader.got, 1) == Word3(s.sent[|s.seen|], 1)
      && Word3(s.reader.got, 2) == Word3(s.sent[|s.seen|], 2);
    assert s.reader.got == s.sent[|s.seen|];
  }

  lemma StepInv(s: State, z: State)
    requires Inv(s) && Step(s, z)
    ensures Inv(z)
  {
    hide Inv, Begin, StoreLinkWord, StoreLinkCycle, StoreWord, StoreCycle, Look, ReadWord, Finish;
    if t :| Begin(s, t, z) {
      BeginInv(s, t, z);
    } else if w :| StoreLinkWord(s, w, z) {
      StoreLinkWordInv(s, w, z);
    } else if StoreLinkCycle(s, z) {
      StoreLinkCycleInv(s, z);
    } else if w :| StoreWord(s, w, z) {
      StoreWordInv(s, w, z);
    } else if StoreCycle(s, z) {
      StoreCycleInv(s, z);
    } else if Look(s, z) {
      LookInv(s, z);
    } else if w :| ReadWord(s, w, z) {
      ReadWordInv(s, w, z);
    } else {
      FinishInv(s, z);
    }
  }

  ghost predicate Behaviour(run: seq<State>) {
    run != [] && Init(run[0]) && forall i :: 0 < i < |run| ==> Step(run[i - 1], run[i])
  }

  lemma {:induction false} RunInv(run: seq<State>)
    requires Behaviour(run)
    ensures Inv(run[|run| - 1])
  {
    if |run| == 1 {
      InitInv(run[0]);
    } else {
      var shorter := run[..|run| - 1];
      assert Behaviour(shorter) by {
        forall i | 0 < i < |shorter| ensures Step(shorter[i - 1], shorter[i]) {
          assert Step(run[i - 1], run[i]);
        }
      }
      RunInv(shorter);
      StepInv(run[|run| - 2], run[|run| - 1]);
    }
  }

  /** In every run, over any number of wraps, the controller takes exactly the TRBs that were
      sent, in order and whole; and while any is outstanding it can go on. */
  lemma InOrder(run: seq<State>)
    requires Behaviour(run)
    ensures var s := run[|run| - 1];
      && |s.seen| <= |s.sent| && s.seen == s.sent[..|s.seen|] && |s.sent| - |s.seen| <= USABLE
      && (|s.seen| < |s.sent| ==> exists z :: Step(s, z) && z.sent == s.sent && z.phase == s.phase)
      && (s.lap > s.clap ==> |s.mem| == 64 && s.mem[63].a == s.base && s.mem[63].b == s.mem[63].c == 0 && s.mem[63].d == 6146 + s.ccs)
  {
    RunInv(run);
    var s := run[|run| - 1];
    Ownership(s);
    if |s.seen| < |s.sent| {
      Progress(s);
    }
  }

  lemma Progress(s: State)
    requires Inv(s) && |s.seen| < |s.sent|
    ensures exists z :: Step(s, z) && z.sent == s.sent && z.phase == s.phase
  {
    Ownership(s);
    if s.reader == Looking {
      var z := if s.deq == USABLE then Wrapped(s)
               else s.(reader := Reading(BEFORE_BARRIER, Trb(0, 0, 0, s.mem[s.deq].d)));
      assert Look(s, z);
    } else if s.reader.left == {} {
      var z := s.(seen := s.seen + [s.reader.got], deq := s.deq + 1, reader := Looking);
      assert Finish(s, z);
    } else {
      var w :| w in s.reader.left;
      var z := s.(reader := Reading(s.reader.left - {w}, WithWord(s.reader.got, w, Word3(s.mem[s.deq], w))));
      assert ReadWord(s, w, z);
    }
  }

  // ------------------------------------------------------------ the driver's code

  /** The steps of a run, with no step of the controller in between. */
  ghost predicate Steps(run: seq<State>) {
    run != [] && forall i :: 0 < i < |run| ==> Step(run[i - 1], run[i])
  }

  lemma StepsMore(run: seq<State>, z: State)
    requires Steps(run) && Step(run[|run| - 1], z)
    ensures Steps(run + [z])
  {
    hide Step;
    var more := run + [z];
    forall i | 0 < i < |more| ensures Step(more[i - 1], more[i]) {
      if i < |run| {
        assert Step(run[i - 1], run[i]);
      }
    }
  }

  class Ring {
    const base: Word
    const trbs: array<Trb>
    var next: nat
    var cycle: int

    /** ring_init. */
    constructor (base: Word)
      ensures fresh(trbs) && trbs.Length == 64 && this.base == base && Matches(Start(base)) && Init(Start(base))
    {
      this.base, next, cycle := base, 0, 1;
      trbs := new Trb[RING_SIZE](i => Trb(0, 0, 0, 0));
    }

    static function Start(base: Word): State {
      State(seq(RING_SIZE, i => Trb(0, 0, 0, 0)), base, 0, 1, Idle, Trb(0, 0, 0, 0), 0, 1, Looking, [], [], 0, 0)
    }

    /** The driver's side of `s` is this ring. */
    ghost predicate Matches(s: State)
      reads this, trbs
    {
      trbs[..] == s.mem && base == s.base && next == s.next && cycle == s.cycle
    }

    /** enqueue(): its stores are steps of the protocol, and they send this one TRB. */
    method Enqueue(a: Word, b: Word, c: Word, control: Word, ghost s: State) returns (at: nat, ghost run: seq<State>)
      requires Inv(s) && Matches(s) && s.phase == Idle && |s.sent| - |s.seen| < USABLE && control % 2 == 0
      modifies this, trbs
      ensures Steps(run) && run[0] == s
      ensures var z := run[|run| - 1];
        && Inv(z) && Matches(z) && z.phase == Idle && z.seen == s.seen
        && z.sent == s.sent + [Trb(a, b, c, control + old(if next == 63 then 1 - cycle else cycle))]
      ensures at == if old(next) == 63 then 0 else old(next)
    {
      hide Step, Inv, Cycles, Whole, Stored, Read;
      ghost var t := Trb(a, b, c, control);
      ghost var z := s.(current := t, phase := if s.next == USABLE then Linking(BEFORE_BARRIER) else Filling(BEFORE_BARRIER));
      run := [s];
      InRange(s);
      StepIs(s, z, t, 0);
      run := run + [z];
      if next == USABLE {
        run, z := StoreLink(run, z);
      }
      at := next;
      next := next + 1;
      run, z := StoreBody(at, a, b, c, control, run, z);
      InRange(z);
    }

    /** The stores of the Link TRB; the one with the cycle bit comes after the barrier. */
    method StoreLink(ghost run: seq<State>, ghost s: State) returns (ghost more: seq<State>, ghost z: State)
      requires Inv(s) && Matches(s) && s.phase == Linking(BEFORE_BARRIER) && Steps(run) && run[|run| - 1] == s
      modifies this, trbs
      ensures Steps(more) && run <= more && more[|more| - 1] == z && Inv(z) && Matches(z)
      ensures z.phase == Filling(BEFORE_BARRIER) && z.sent == s.sent && z.seen == s.seen && z.current == s.current
      ensures next == 0 && cycle == 1 - old(cycle)
    {
      hide Step, Inv, Cycles, Whole, Stored, Read;
      InRange(s);
      Words();
      more, z := run, s;
      trbs[USABLE] := trbs[USABLE].(a := base);
      more, z := Stored1(more, z, z.(mem := z.mem[USABLE := WithWord(z.mem[USABLE], 0, z.base)], phase := Linking({1, 2})), 0);
      trbs[USABLE] := trbs[USABLE].(c := 0);
      more, z := Stored1(more, z, z.(mem := z.mem[USABLE := WithWord(z.mem[USABLE], 2, 0)], phase := Linking({1})), 2);
      trbs[USABLE] := trbs[USABLE].(b := 0);
      more, z := Stored1(more, z, z.(mem := z.mem[USABLE := WithWord(z.mem[USABLE], 1, 0)], phase := Linking({})), 1);
      LinkBits(cycle);
      trbs[USABLE] := trbs[USABLE].(d := LINK_CONTROL + cycle);
      next := 0;
      cycle := 1 - cycle;
      more, z := Stored1(more, z, z.(mem := z.mem[USABLE := z.mem[USABLE].(d := LINK_CONTROL + z.cycle)],
                                     next := 0, cycle := 1 - z.cycle, phase := Filling(BEFORE_BARRIER), lap := z.lap + 1), 0);
    }

    /** The stores of the TRB itself, in slot `at`. */
    method StoreBody(at: nat, a: Word, b: Word, c: Word, control: Word, ghost run: seq<State>, ghost s: State) returns (ghost more: seq<State>, ghost z: State)
      requires Inv(s) && s.phase == Filling(BEFORE_BARRIER) && Steps(run) && run[|run| - 1] == s
      requires trbs[..] == s.mem && base == s.base && at == s.next && next == s.next + 1 && cycle == s.cycle
      requires s.current == Trb(a, b, c, control) && control % 2 == 0
      modifies trbs
      ensures Steps(more) && run <= more && more[|more| - 1] == z && Inv(z) && Matches(z)
      ensures z.phase == Idle && z.seen == s.seen && z.sent == s.sent + [Trb(a, b, c, control + cycle)]
    {
      hide Step, Inv, Cycles, Whole, Stored, Read;
      InRange(s);
      Words();
      more, z := run, s;
      trbs[at] := trbs[at].(a := a);
      more, z := Stored1(more, z, z.(mem := z.mem[at := WithWord(z.mem[at], 0, a)], phase := Filling({1, 2})), 0);
      trbs[at] := trbs[at].(b := b);
      more, z := Stored1(more, z, z.(mem := z.mem[at := WithWord(z.mem[at], 1, b)], phase := Filling({2})), 1);
      trbs[at] := trbs[at].(c := c);
      more, z := Stored1(more, z, z.(mem := z.mem[at := WithWord(z.mem[at], 2, c)], phase := Filling({})), 2);
      trbs[at] := trbs[at].(d := control + cycle);
      more, z := Stored1(more, z, z.(mem := z.mem[at := z.mem[at].(d := control + z.cycle)], next := z.next + 1, phase := Idle,
                                     sent := z.sent + [z.current.(d := control + z.cycle)]), 0);
    }
  }

  /** One store more. */
  lemma Stored1(run: seq<State>, s: State, z: State, w: int) returns (more: seq<State>, last: State)
    requires Inv(s) && Steps(run) && run[|run| - 1] == s
    requires StoreLinkWord(s, w, z) || StoreLinkCycle(s, z) || StoreWord(s, w, z) || StoreCycle(s, z)
    ensures more == run + [z] && last == z && Steps(more) && Inv(z)
  {
    hide Inv, Begin, StoreLinkWord, StoreLinkCycle, StoreWord, StoreCycle, Look, ReadWord, Finish;
    assert Step(s, z);
    StepInv(s, z);
    more, last := run + [z], z;
    StepsMore(run, z);
  }

  lemma Words()
    ensures BEFORE_BARRIER - {0} == {1, 2} && {1, 2} - {1} == {2} && {1, 2} - {2} == {1}
    ensures {1} - {1} == {2} - {2} == {}
  {
  }

  lemma InRange(s: State)
    requires Inv(s)
    ensures |s.mem| == RING_SIZE && s.next <= USABLE && 0 <= s.cycle <= 1 && (s.phase.Filling? ==> s.next < USABLE)
    ensures s.phase.Linking? ==> s.next == USABLE
  {
    BitFlips(s.lap);
  }

  lemma StepIs(s: State, z: State, t: Trb, w: int)
    requires Inv(s) && Begin(s, t, z)
    ensures Step(s, z) && Inv(z) && Steps([s]) && Steps([s] + [z])
  {
    hide Inv, Begin, StoreLinkWord, StoreLinkCycle, StoreWord, StoreCycle, Look, ReadWord, Finish;
    BeginInv(s, t, z);
    assert Step(s, z);
    StepsMore([s], z);
  }
}
