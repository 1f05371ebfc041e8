/** usb_xhci.c: the event ring, where the controller stores and the driver's events() takes.

    There is no Link TRB: both sides go from the last slot to the first and toggle their cycle
    state (xHCI 1.2 section 4.9.4). */
module XhciEvents {
  import opened Bytes
  import opened XhciRing

  const EVENTS := 256

  datatype Ring2 = Ring2(mem: seq<Trb>, next: nat, cycle: int, busy: bool, todo: set<int>, current: Trb,
                         index: nat, eventCycle: int, sent: seq<Trb>, seen: seq<Trb>, lap: nat, clap: nat)

  predicate Fresh(s: Ring2) {
    && s.mem == seq(EVENTS, i => Trb(0, 0, 0, 0)) && s.next == 0 && s.cycle == 1 && !s.busy
    && s.index == 0 && s.eventCycle == 1 && s.sent == [] && s.seen == [] && s.lap == 0 && s.clap == 0
  }

  /** The controller starts an event while the ring is not full; `t.d` has no cycle bit. */
  predicate Post(s: Ring2, t: Trb, z: Ring2) {
    && !s.busy && |s.sent| - |s.seen| < EVENTS && t.d % 2 == 0
    && z == s.(current := t, busy := true, todo := BEFORE_BARRIER)
  }

  predicate PostWord(s: Ring2, w: int, z: Ring2) {
    && s.busy && w in s.todo && s.next < |s.mem|
    && z == s.(mem := s.mem[s.next := WithWord(s.mem[s.next], w, Word3(s.current, w))], todo := s.todo - {w})
  }

  predicate PostCycle(s: Ring2, z: Ring2) {
    && s.busy && s.todo == {} && s.next < |s.mem| && 0 <= s.cycle <= 1 && s.current.d + s.cycle < U32
    && z == s.(mem := s.mem[s.next := s.mem[s.next].(d := s.current.d + s.cycle)], busy := false,
               sent := s.sent + [s.current.(d := s.current.d + s.cycle)],
               next := if s.next + 1 == EVENTS then 0 else s.next + 1,
               cycle := if s.next + 1 == EVENTS then 1 - s.cycle else s.cycle,
               lap := if s.next + 1 == EVENTS then s.lap + 1 else s.lap)
  }

  /** One turn of events(). */
  predicate Take(s: Ring2, z: Ring2) {
    && s.index < |s.mem| && CycleOf(s.mem[s.index]) == s.eventCycle
    && z == s.(seen := s.seen + [s.mem[s.index]],
               index := if s.index + 1 == EVENTS then 0 else s.index + 1,
               eventCycle := if s.index + 1 == EVENTS then 1 - s.eventCycle else s.eventCycle,
               clap := if s.index + 1 == EVENTS then s.clap + 1 else s.clap)
  }

  ghost predicate Move(s: Ring2, z: Ring2) {
    (exists t :: Post(s, t, z)) || (exists w :: PostWord(s, w, z)) || PostCycle(s, z) || Take(s, z)
  }

  ghost predicate Placed(s: Ring2) {
    && |s.mem| == EVENTS
    && |s.sent| == EVENTS * s.lap + s.next && s.next < EVENTS && s.cycle == Bit(s.lap)
    && |s.seen| == EVENTS * s.clap + s.index && s.index < EVENTS && s.eventCycle == Bit(s.clap)
    && |s.seen| <= |s.sent| <= |s.seen| + EVENTS
    && (s.busy ==> |s.sent| < |s.seen| + EVENTS && s.current.d % 2 == 0 && s.todo <= BEFORE_BARRIER)
    && s.seen == s.sent[..|s.seen|]
  }

  ghost predicate Marked(s: Ring2)
    requires Placed(s)
  {
    forall j :: 0 <= j < EVENTS ==> CycleOf(s.mem[j]) == if j < s.next then Bit(s.lap) else Bit(s.lap - 1)
  }

  ghost predicate Held(s: Ring2)
    requires Placed(s)
  {
    && (forall j :: 0 <= j < s.next ==> s.mem[j] == s.sent[EVENTS * s.lap + j])
    && (s.lap > 0 ==> forall j :: s.next <= j < EVENTS && |s.seen| <= EVENTS * (s.lap - 1) + j ==>
          s.mem[j] == s.sent[EVENTS * (s.lap - 1) + j])
    && (s.busy ==> forall w :: w in BEFORE_BARRIER - s.todo ==> Word3(s.mem[s.next], w) == Word3(s.current, w))
  }

  ghost predicate Sound(s: Ring2) {
    Placed(s) && Marked(s) && Held(s)
  }

  lemma FreshSound(s: Ring2)
    requires Fresh(s)
    ensures Sound(s)
  {
  }

  /** The next slot is the driver's exactly when an event is outstanding, and then it is that event. */
  lemma Owned(s: Ring2)
    requires Sound(s)
    ensures CycleOf(s.mem[s.index]) == s.eventCycle <==> |s.seen| < |s.sent|
    ensures |s.seen| < |s.sent| ==> s.mem[s.index] == s.sent[|s.seen|]
  {
    BitFlips(s.lap);
    BitFlips(s.clap);
    assert s.lap == s.clap || s.lap == s.clap + 1;
  }

  lemma PostSound(s: Ring2, t: Trb, z: Ring2)
    requires Sound(s) && Post(s, t, z)
    ensures Sound(z)
  {
  }

  lemma PostWordSound(s: Ring2, w: int, z: Ring2)
    requires Sound(s) && PostWord(s, w, z)
    ensures Sound(z)
  {
    forall u | u in BEFORE_BARRIER - z.todo ensures Word3(z.mem[z.next], u) == Word3(z.current, u) {
      assert u == w || Word3(s.mem[s.next], u) == Word3(s.current, u);
    }
  }

  lemma PostCyclePlaced(s: Ring2, z: Ring2)
    requires Placed(s) && PostCycle(s, z)
    ensures Placed(z)
  {
    BitFlips(s.lap + 1);
  }

  lemma PostCycleMarked(s: Ring2, z: Ring2)
    requires Sound(s) && PostCycle(s, z) && Placed(z)
    ensures Marked(z)
  {
    hide Held;
    BitFlips(s.lap + 1);
  }

  lemma PostCycleHeld(s: Ring2, z: Ring2)
    requires Sound(s) && PostCycle(s, z) && Placed(z)
    ensures Held(z)
  {
    hide Marked;
    assert 0 in BEFORE_BARRIER - s.todo && 1 in BEFORE_BARRIER - s.todo && 2 in BEFORE_BARRIER - s.todo;
    assert Word3(s.mem[s.next], 0) == s.current.a && Word3(s.mem[s.next], 1) == s.current.b && Word3(s.mem[s.next], 2) == s.current.c;
    assert z.mem[s.next] == s.current.(d := s.current.d + s.cycle) == z.sent[|s.sent|];
  }

  lemma PostCycleSound(s: Ring2, z: Ring2)
    requires Sound(s) && PostCycle(s, z)
    ensures Sound(z)
  {
    hide Placed, Marked, Held, PostCycle;
    PostCyclePlaced(s, z);
    PostCycleMarked(s, z);
    PostCycleHeld(s, z);
  }

  lemma TakeSound(s: Ring2, z: Ring2)
    requires Sound(s) && Take(s, z)
    ensures Sound(z)
  {
    Owned(s);
    BitFlips(s.clap + 1);
  }

  lemma MoveSound(s: Ring2, z: Ring2)
    requires Sound(s) && Move(s, z)
    ensures Sound(z)
  {
    hide Sound, Post, PostWord, PostCycle, Take;
    if t :| Post(s, t, z) {
      PostSound(s, t, z);
    } else if w :| PostWord(s, w, z) {
      PostWordSound(s, w, z);
    } else if PostCycle(s, z) {
      PostCycleSound(s, z);
    } else {
      TakeSound(s, z);
    }
  }

  /** In every run, the driver takes exactly the events that were posted, in order and whole. */
  lemma {:induction false} EventsInOrder(run: seq<Ring2>)
    requires run != [] && Fresh(run[0]) && forall i :: 0 < i < |run| ==> Move(run[i - 1], run[i])
    ensures var s := run[|run| - 1]; Sound(s) && |s.seen| <= |s.sent| && s.seen == s.sent[..|s.seen|]
  {
    hide Move;
    if |run| == 1 {
      FreshSound(run[0]);
    } else {
      var shorter := run[..|run| - 1];
      forall i | 0 < i < |shorter| ensures Move(shorter[i - 1], shorter[i]) {
        assert Move(run[i - 1], run[i]);
      }
      EventsInOrder(shorter);
      MoveSound(run[|run| - 2], run[|run| - 1]);
    }
  }

  /** What a command that waits for the TRB at `waiting` learns from a list of events. */
  function Completed(es: seq<Trb>, waiting: Word, code: int): int {
    if es == [] then code
    else
      var e := es[|es| - 1];
      if e.d / 1024 % 64 == 33 && e.a == waiting then e.c / 0x100_0000 else Completed(es[..|es| - 1], waiting, code)
  }

  class Host {
    const events: array<Trb>
    var eventIndex: nat
    var eventCycle: int
    var waiting: Word
    var completion: int

    constructor ()
      ensures fresh(events) && eventIndex == 0 && eventCycle == 1 && events[..] == seq(256, i => Trb(0, 0, 0, 0))
    {
      events := new Trb[EVENTS](i => Trb(0, 0, 0, 0));
      eventIndex, eventCycle, waiting, completion := 0, 1, 0, 0;
    }

    ghost predicate Matches(s: Ring2)
      reads this, events
    {
      events[..] == s.mem && eventIndex == s.index && eventCycle == s.eventCycle
    }

    /** events(): takes everything that is outstanding when it is called. */
    method Events(ghost s: Ring2) returns (ghost z: Ring2)
      requires Sound(s) && Matches(s)
      modifies this`eventIndex, this`eventCycle, this`completion
      ensures Sound(z) && Matches(z) && z.sent == s.sent && z.seen == s.sent
      ensures completion == Completed(s.sent[|s.seen|..], waiting, old(completion))
    {
      hide Sound, Completed;
      NoneCompleted(s.sent, |s.seen|, waiting, completion) by {
        SoundSizes(s);
      }
      z := s;
      SoundSizes(s);
      var count := 0;
      while count < EVENTS
        invariant 0 <= count <= EVENTS && Sound(z) && Matches(z)
        invariant z.sent == s.sent && |z.seen| == |s.seen| + count && |z.seen| <= |s.sent|
        invariant completion == Completed(s.sent[|s.seen|..|z.seen|], waiting, old(completion))
      {
        Owned(z);
        SoundSizes(z);
        var e := events[eventIndex];
        if e.d % 2 != eventCycle {
          break;
        }
        ghost var taken := z.(seen := z.seen + [z.mem[z.index]],
               index := if z.index + 1 == EVENTS then 0 else z.index + 1,
               eventCycle := if z.index + 1 == EVENTS then 1 - z.eventCycle else z.eventCycle,
               clap := if z.index + 1 == EVENTS then z.clap + 1 else z.clap);
        assert Take(z, taken);
        TakeSound(z, taken);
        OneCompleted(s.sent, |s.seen|, |z.seen|, waiting, old(completion));
        if e.d / 1024 % 64 == 33 && e.a == waiting {
          completion := e.c / 0x100_0000;
        }
        eventIndex := eventIndex + 1;
        if eventIndex == EVENTS {
          eventIndex := 0;
          eventCycle := 1 - eventCycle;
        }
        z := taken;
        count := count + 1;
      }
      SoundSizes(z);
      assert s.sent[|s.seen|..|s.sent|] == s.sent[|s.seen|..];
    }
  }

  lemma NoneCompleted(sent: seq<Trb>, k: nat, waiting: Word, code: int)
    requires k <= |sent|
    ensures Completed(sent[k..k], waiting, code) == code
  {
  }

  lemma OneCompleted(sent: seq<Trb>, k: nat, n: nat, waiting: Word, code: int)
    requires k <= n < |sent|
    ensures Completed(sent[k..n + 1], waiting, code) ==
            if sent[n].d / 1024 % 64 == 33 && sent[n].a == waiting then sent[n].c / 0x100_0000 else Completed(sent[k..n], waiting, code)
  {
    var more := sent[k..n + 1];
    assert more[..|more| - 1] == sent[k..n];
  }

  lemma SoundSizes(s: Ring2)
    requires Sound(s)
    ensures |s.mem| == EVENTS && s.index < EVENTS && |s.seen| <= |s.sent| <= |s.seen| + EVENTS && s.seen == s.sent[..|s.seen|]
  {
  }
}
