/**
 The virtual gamepad's Back button: tapped it stays a Back button, held for long enough it becomes
 a press of Home.
 */
module Gamepad {
  datatype Button = Start | Select | Mode | ThumbL | ThumbR | Tl | Tr | A | B | X | Y

  datatype Axis = HatX | HatY | StickX | StickY | StickRx | StickRy | TriggerZ | TriggerRz

  datatype Event = Key(button: Button, on: bool) | Move(axis: Axis, value: int) | Sync

  const BACK_FLAG := 0x20
  const HOLD_MS := 750
  const HOME_HOLD_MS := 120

  const PAD_BUTTONS: seq<(nat, Button)> := [
    (0x10, Start), (BACK_FLAG, Select), (0x400, Mode), (0x40, ThumbL), (0x80, ThumbR), (0x100, Tl),
    (0x200, Tr), (0x1000, A), (0x2000, B), (0x4000, X), (0x8000, Y)
  ]

  const HOME_ROW := 2

  datatype Sticks = Sticks(
    leftTrigger: int, rightTrigger: int,
    leftX: int, leftY: int, rightX: int, rightY: int)

  /** One packet of the controller: its button flags, the time at which it is handled, and the rest. */
  datatype Packet = Packet(flags: nat, nowMs: int, sticks: Sticks)

  predicate Has(flags: nat, flag: nat)
    requires flag > 0
  {
    flags / flag % 2 == 1
  }

  /** The controller has its Back button down: bit 5 of the flags. */
  predicate Back(p: Packet)
  {
    p.flags / 0x20 % 2 == 1
  }

  /** The controller has its own Home button down: bit 10. */
  predicate Guide(p: Packet)
  {
    p.flags / 0x400 % 2 == 1
  }

  /** The state between packets. */
  datatype Pad = Pad(backHeld: bool, homeFired: bool, homeDown: bool, backPressMs: int, homePressMs: int)

  const FRESH := Pad(false, false, false, 0, 0)

  // One packet, in the order in which it is handled

  function NoticeBack(s: Pad, p: Packet): Pad
  {
    if Back(p) && !s.backHeld then s.(backHeld := true, backPressMs := p.nowMs, homeFired := false)
    else if !Back(p) && s.backHeld then s.(backHeld := false)
    else s
  }

  /** Back was let go before Home fired. */
  predicate Taps(s: Pad, p: Packet)
  {
    !Back(p) && s.backHeld && !s.homeFired
  }

  /** Back has now been held for long enough, for the first time. */
  predicate HoldIsLong(t: Pad, nowMs: int)
  {
    t.backHeld && !t.homeFired && nowMs - t.backPressMs >= HOLD_MS
  }

  function MoveHome(t: Pad, nowMs: int): Pad
  {
    var u := if HoldIsLong(t, nowMs) then t.(homeFired := true, homeDown := true, homePressMs := nowMs) else t;
    if u.homeDown && nowMs - u.homePressMs >= HOME_HOLD_MS then u.(homeDown := false) else u
  }

  predicate Fires(s: Pad, p: Packet)
  {
    HoldIsLong(NoticeBack(s, p), p.nowMs)
  }

  function Step(s: Pad, p: Packet): Pad
  {
    MoveHome(NoticeBack(s, p), p.nowMs)
  }

  const TAP: seq<Event> := [Key(Select, true), Sync, Key(Select, false), Sync]

  /** The keys that one packet sets, the first n of the table; Back is not among them. */
  function Keys(flags: nat, homeDown: bool, n: nat): (events: seq<Event>)
    requires n <= |PAD_BUTTONS|
  {
    if n == 0 then []
    else Keys(flags, homeDown, n - 1) + KeyOf(flags, homeDown, PAD_BUTTONS[n - 1])
  }

  function KeyOf(flags: nat, homeDown: bool, b: (nat, Button)): (events: seq<Event>)
  {
    if b.1 == Select then [] else [Key(b.1, (b.0 > 0 && Has(flags, b.0)) || (b.1 == Mode && homeDown))]
  }

  function Bit(flags: nat, flag: nat): int
    requires flag > 0
  {
    if Has(flags, flag) then 1 else 0
  }

  /** The axes that one packet sets; the device has its y axes the other way round. */
  function Moves(flags: nat, s: Sticks): (events: seq<Event>)
  {
    [Move(HatX, Bit(flags, 8) - Bit(flags, 4)), Move(HatY, Bit(flags, 2) - Bit(flags, 1)),
     Move(StickX, s.leftX), Move(StickY, -s.leftY - 1), Move(StickRx, s.rightX), Move(StickRy, -s.rightY - 1),
     Move(TriggerZ, s.leftTrigger), Move(TriggerRz, s.rightTrigger)]
  }

  function Events(s: Pad, p: Packet): (events: seq<Event>)
  {
    (if Taps(s, p) then TAP else []) + Keys(p.flags, Step(s, p).homeDown, |PAD_BUTTONS|)
      + (Moves(p.flags, p.sticks) + [Sync])
  }

  /** The values that the wire has for triggers and sticks: a byte, and 16 bits with a sign. */
  predicate OnWire(s: Sticks)
  {
    && 0 <= s.leftTrigger <= 255 && 0 <= s.rightTrigger <= 255
    && -0x8000 <= s.leftX < 0x8000 && -0x8000 <= s.leftY < 0x8000
    && -0x8000 <= s.rightX < 0x8000 && -0x8000 <= s.rightY < 0x8000
  }

  /** The range that the device was created with. */
  predicate InRange(axis: Axis, value: int)
  {
    match axis
    case HatX | HatY => -1 <= value <= 1
    case TriggerZ | TriggerRz => 0 <= value <= 255
    case _ => -0x8000 <= value < 0x8000
  }

  /** Whatever is on the wire, every axis stays in its range; the lowest y would not when only negated. */
  lemma MovesInRange(flags: nat, s: Sticks)
    requires OnWire(s)
    ensures forall e :: e in Moves(flags, s) ==> e.Move? && InRange(e.axis, e.value)
    ensures !InRange(StickY, -(-0x8000))
  {
  }

  class VirtualGamepad {
    var backHeld: bool
    var homeFired: bool
    var homeDown: bool
    var backPressMs: int
    var homePressMs: int
    ghost var packets: seq<Packet>  // what was handled so far
    ghost var sent: seq<Event>  // and what the device was told

    ghost function State(): Pad
      reads this
    {
      Pad(backHeld, homeFired, homeDown, backPressMs, homePressMs)
    }

    ghost predicate Valid()
      reads this
    {
      State() == After(packets, |packets|) && sent == AllEvents(packets, |packets|)
    }

    constructor ()
      ensures Valid() && packets == []
    {
      backHeld, homeFired, homeDown, backPressMs, homePressMs := false, false, false, 0, 0;
      packets, sent := [], [];
    }

    method Update(flags: nat, nowMs: int, sticks: Sticks) returns (events: seq<Event>)
      requires Valid()
      modifies this
      ensures Valid() && packets == old(packets) + [Packet(flags, nowMs, sticks)] && sent == old(sent) + events
      ensures State() == Step(old(State()), Packet(flags, nowMs, sticks))
      ensures events == Events(old(State()), Packet(flags, nowMs, sticks))
    {
      ghost var p := Packet(flags, nowMs, sticks);
      events := Handle(flags, nowMs, sticks, p);
      packets, sent := packets + [p], sent + events;
      HistoryNext(old(packets), p, old(State()), old(sent), packets, State(), sent);
    }

    // The chord first, then the state of every button and axis.
    method Handle(flags: nat, nowMs: int, sticks: Sticks, ghost p: Packet) returns (events: seq<Event>)
      requires p == Packet(flags, nowMs, sticks)
      modifies `backHeld, `backPressMs, `homeFired, `homeDown, `homePressMs
      ensures State() == Step(old(State()), p) && events == Events(old(State()), p)
    {
      var tap := TrackBack(flags, nowMs, p);
      TrackHome(nowMs);
      var keys := EmitKeys(flags);
      var moves := EmitMoves(flags, sticks);
      events := tap + keys + (moves + [Sync]);
    }

    // Back goes down or up; a short hold becomes a tap when it ends.
    method TrackBack(flags: nat, nowMs: int, ghost p: Packet) returns (events: seq<Event>)
      requires p.flags == flags && p.nowMs == nowMs
      modifies `backHeld, `backPressMs, `homeFired
      ensures State() == NoticeBack(old(State()), p)
      ensures events == if Taps(old(State()), p) then TAP else []
    {
      events := [];
      var backNow := Has(flags, BACK_FLAG);
      if backNow && !backHeld {
        backHeld := true;
        backPressMs := nowMs;
        homeFired := false;
      } else if !backNow && backHeld {
        backHeld := false;
        if !homeFired {
          events := events + [Key(Select, true)];
          events := events + [Sync];
          events := events + [Key(Select, false)];
          events := events + [Sync];
        }
      }
    }

    // Home is pressed when the hold has become long, and let go after a while.
    method TrackHome(nowMs: int)
      modifies `homeFired, `homeDown, `homePressMs
      ensures State() == MoveHome(old(State()), nowMs)
    {
      if backHeld && !homeFired && nowMs - backPressMs >= HOLD_MS {
        homeFired := true;
        homeDown := true;
        homePressMs := nowMs;
      }
      if homeDown && nowMs - homePressMs >= HOME_HOLD_MS {
        homeDown := false;
      }
    }

    // The hat, the sticks and the triggers.
    method EmitMoves(flags: nat, s: Sticks) returns (moves: seq<Event>)
      ensures moves == Moves(flags, s)
    {
      var hatX := (if Has(flags, 8) then 1 else 0) - if Has(flags, 4) then 1 else 0;
      var hatY := (if Has(flags, 2) then 1 else 0) - if Has(flags, 1) then 1 else 0;
      moves := [Move(HatX, hatX), Move(HatY, hatY)];
      moves := moves + [Move(StickX, s.leftX), Move(StickY, -s.leftY - 1)];
      moves := moves + [Move(StickRx, s.rightX), Move(StickRy, -s.rightY - 1)];
      moves := moves + [Move(TriggerZ, s.leftTrigger), Move(TriggerRz, s.rightTrigger)];
    }

    method EmitKeys(flags: nat) returns (keys: seq<Event>)
      ensures keys == Keys(flags, homeDown, |PAD_BUTTONS|)
    {
      keys := [];
      for i := 0 to |PAD_BUTTONS|
        invariant keys == Keys(flags, homeDown, i)
      {
        var b := PAD_BUTTONS[i];
        if b.1 == Select {
          continue;
        }
        var on := (b.0 > 0 && Has(flags, b.0)) || (b.1 == Mode && homeDown);
        keys := keys + [Key(b.1, on)];
      }
    }
  }

  // Runs

  ghost function After(ps: seq<Packet>, n: nat): Pad
    requires n <= |ps|
  {
    if n == 0 then FRESH else Step(After(ps, n - 1), ps[n - 1])
  }

  ghost function AllEvents(ps: seq<Packet>, n: nat): seq<Event>
    requires n <= |ps|
  {
    if n == 0 then [] else AllEvents(ps, n - 1) + Events(After(ps, n - 1), ps[n - 1])
  }

  lemma {:induction false} PrefixSame(ps: seq<Packet>, more: seq<Packet>, n: nat)
    requires n <= |ps|
    ensures After(ps + more, n) == After(ps, n) && AllEvents(ps + more, n) == AllEvents(ps, n)
  {
    if n > 0 {
      PrefixSame(ps, more, n - 1);
    }
  }

  lemma HistoryNext(ps: seq<Packet>, p: Packet, s: Pad, sent: seq<Event>, ps': seq<Packet>, s': Pad, sent': seq<Event>)
    requires s == After(ps, |ps|) && sent == AllEvents(ps, |ps|)
    requires ps' == ps + [p] && s' == Step(s, p) && sent' == sent + Events(s, p)
    ensures s' == After(ps', |ps'|) && sent' == AllEvents(ps', |ps'|)
  {
    PrefixSame(ps, [p], |ps|);
  }

  // What is meant, without the state

  /** The packet at which the hold of Back that packet i belongs to began. */
  ghost function HoldStart(ps: seq<Packet>, i: nat): (a: nat)
    requires i < |ps| && Back(ps[i])
    ensures a <= i && Back(ps[a]) && (a > 0 ==> !Back(ps[a - 1]))
    ensures forall j :: a <= j <= i ==> Back(ps[j])
  {
    if i == 0 || !Back(ps[i - 1]) then i else HoldStart(ps, i - 1)
  }

  /** Some packet before n saw Back held for at least 750 ms after packet a. */
  ghost predicate HeldLong(ps: seq<Packet>, a: nat, n: nat)
    requires n <= |ps| && a < |ps|
  {
    exists j :: a <= j < n && ps[j].nowMs - ps[a].nowMs >= 750
  }

  ghost predicate FiresAt(ps: seq<Packet>, i: nat)
    requires i < |ps|
  {
    Fires(After(ps, i), ps[i])
  }

  ghost predicate TapsAt(ps: seq<Packet>, i: nat)
    requires i < |ps|
  {
    Taps(After(ps, i), ps[i])
  }

  /** The state remembers the hold and whether it was long. */
  lemma {:induction false} StateOfHold(ps: seq<Packet>, n: nat)
    requires n <= |ps|
    ensures After(ps, n).backHeld <==> n > 0 && Back(ps[n - 1])
    ensures n > 0 && Back(ps[n - 1]) ==>
              var a := HoldStart(ps, n - 1);
              After(ps, n).backPressMs == ps[a].nowMs && (After(ps, n).homeFired <==> HeldLong(ps, a, n))
  {
    if n > 0 {
      StateOfHold(ps, n - 1);
      var i := n - 1;
      if Back(ps[i]) {
        var a := HoldStart(ps, i);
        assert HeldLong(ps, a, n) <==> HeldLong(ps, a, i) || ps[i].nowMs - ps[a].nowMs >= 750;
      }
    }
  }

  /** Home fires at the first packet that sees Back held for 750 ms, and at no other. */
  lemma FiresWhen(ps: seq<Packet>, i: nat)
    requires i < |ps|
    ensures FiresAt(ps, i) <==>
            Back(ps[i]) && ps[i].nowMs - ps[HoldStart(ps, i)].nowMs >= 750 && !HeldLong(ps, HoldStart(ps, i), i)
  {
    StateOfHold(ps, i);
  }

  /** Back is tapped when it is let go and no packet saw it held for 750 ms, and at no other time. */
  lemma TapsWhen(ps: seq<Packet>, i: nat)
    requires i < |ps|
    ensures TapsAt(ps, i) <==>
            i > 0 && !Back(ps[i]) && Back(ps[i - 1]) && !HeldLong(ps, HoldStart(ps, i - 1), i)
  {
    StateOfHold(ps, i);
  }

  /** Back goes down at packet a and up at packet b. */
  ghost predicate CompletedHold(ps: seq<Packet>, a: nat, b: nat)
  {
    && a < b < |ps| && (a > 0 ==> !Back(ps[a - 1])) && !Back(ps[b])
    && forall j :: a <= j < b ==> Back(ps[j])
  }

  lemma {:induction false} StartOfHold(ps: seq<Packet>, a: nat, b: nat, i: nat)
    requires CompletedHold(ps, a, b) && a <= i < b
    ensures HoldStart(ps, i) == a
  {
    if i > a {
      StartOfHold(ps, a, b, i - 1);
    }
  }

  ghost predicate HomeFired(ps: seq<Packet>, a: nat, b: nat)
    requires a <= b <= |ps|
  {
    exists i :: a <= i < b && FiresAt(ps, i)
  }

  lemma {:induction false} LongHoldFires(ps: seq<Packet>, a: nat, b: nat, n: nat)
    requires CompletedHold(ps, a, b) && a <= n <= b
    ensures HeldLong(ps, a, n) <==> HomeFired(ps, a, n)
  {
    if n > a {
      LongHoldFires(ps, a, b, n - 1);
      StartOfHold(ps, a, b, n - 1);
      FiresWhen(ps, n - 1);
    }
  }

  /**
   Every completed hold has exactly one outcome: one tap of Back when it ends, or one firing of
   Home.  It is Home if and only if some packet saw Back still held 750 ms after it went down.
   */
  lemma OneOutcome(ps: seq<Packet>, a: nat, b: nat)
    requires CompletedHold(ps, a, b)
    ensures TapsAt(ps, b) <==> !HomeFired(ps, a, b)
    ensures HomeFired(ps, a, b) <==> HeldLong(ps, a, b)
    ensures forall i, j :: a <= i < b && a <= j < b && FiresAt(ps, i) && FiresAt(ps, j) ==> i == j
    ensures forall i :: a <= i < b ==> !TapsAt(ps, i)
    ensures !FiresAt(ps, b)
  {
    LongHoldFires(ps, a, b, b);
    StartOfHold(ps, a, b, b - 1);
    TapsWhen(ps, b);
    FiresWhen(ps, b);
    forall i | a <= i < b
      ensures !TapsAt(ps, i)
    {
      TapsWhen(ps, i);
    }
    forall i, j | a <= i < b && a <= j < b && FiresAt(ps, i) && FiresAt(ps, j)
      ensures i == j
    {
      FiresOnce(ps, a, b, i, j);
      FiresOnce(ps, a, b, j, i);
    }
  }

  lemma FiresOnce(ps: seq<Packet>, a: nat, b: nat, i: nat, j: nat)
    requires CompletedHold(ps, a, b) && a <= i < b && a <= j < b && FiresAt(ps, i) && FiresAt(ps, j)
    ensures i >= j
  {
    if i < j {
      StartOfHold(ps, a, b, i);
      StartOfHold(ps, a, b, j);
      FiresWhen(ps, i);
      FiresWhen(ps, j);
      assert HeldLong(ps, a, j);
    }
  }

  // Home

  /** f is the last packet before n at which Home fired. */
  ghost predicate LastFiring(ps: seq<Packet>, f: nat, n: nat)
    requires n <= |ps|
  {
    f < n && FiresAt(ps, f) && forall j :: f < j < n ==> !FiresAt(ps, j)
  }

  /** Every packet from f on was handled less than 120 ms after it. */
  ghost predicate Recent(ps: seq<Packet>, f: nat, n: nat)
    requires f < n <= |ps|
  {
    forall j :: f <= j < n ==> ps[j].nowMs - ps[f].nowMs < 120
  }

  /** Home is down from its latest firing to the first packet at least 120 ms later. */
  lemma {:induction false} HomeDownWhen(ps: seq<Packet>, f: nat, n: nat)
    requires n <= |ps| && LastFiring(ps, f, n)
    ensures After(ps, n).homePressMs == ps[f].nowMs && (After(ps, n).homeDown <==> Recent(ps, f, n))
  {
    var i := n - 1;
    if f < i {
      HomeDownWhen(ps, f, i);
      assert !FiresAt(ps, i);
      assert Recent(ps, f, n) <==> Recent(ps, f, i) && ps[i].nowMs - ps[f].nowMs < 120;
    }
  }

  /** Without a firing Home is never down. */
  lemma {:induction false} HomeStaysUp(ps: seq<Packet>, n: nat)
    requires n <= |ps| && !HomeFired(ps, 0, n)
    ensures !After(ps, n).homeDown
  {
    if n > 0 {
      HomeStaysUp(ps, n - 1);
      assert !FiresAt(ps, n - 1);
    }
  }

  // What the device sees

  ghost function Pressed(events: seq<Event>, b: Button): bool
  {
    if events == [] then false
    else
      var e := events[|events| - 1];
      if e.Key? && e.button == b then e.on else Pressed(events[..|events| - 1], b)
  }

  /** Later events decide, unless they do not touch the button. */
  lemma {:induction false} PressedLater(before: seq<Event>, more: seq<Event>, b: Button)
    ensures Touches(more, b) ==> Pressed(before + more, b) == Pressed(more, b)
    ensures !Touches(more, b) ==> Pressed(before + more, b) == Pressed(before, b)
  {
    if more == [] {
      assert before + more == before;
    } else {
      var k := |more| - 1;
      PressedLater(before, more[..k], b);
      assert (before + more)[..|before| + k] == before + more[..k];
    }
  }

  ghost predicate Touches(events: seq<Event>, b: Button)
  {
    exists i :: 0 <= i < |events| && events[i].Key? && events[i].button == b
  }

  lemma {:induction false} KeysLeaveBack(flags: nat, homeDown: bool, n: nat)
    requires n <= |PAD_BUTTONS|
    ensures !Touches(Keys(flags, homeDown, n), Select)
  {
    if n > 0 {
      KeysLeaveBack(flags, homeDown, n - 1);
    }
  }

  lemma {:induction false} KeysSetHome(flags: nat, homeDown: bool, n: nat)
    requires HOME_ROW < n <= |PAD_BUTTONS|
    ensures Touches(Keys(flags, homeDown, n), Mode)
    ensures Pressed(Keys(flags, homeDown, n), Mode) == (Has(flags, 0x400) || homeDown)
  {
    HomeInTable(n - 1);
    if n - 1 > HOME_ROW {
      KeysSetHome(flags, homeDown, n - 1);
    }
    AddKey(Keys(flags, homeDown, n - 1), flags, homeDown, PAD_BUTTONS[n - 1]);
  }

  lemma AddKey(before: seq<Event>, flags: nat, homeDown: bool, b: (nat, Button))
    requires b.1 == Mode ==> b.0 == 0x400
    requires b.1 != Mode ==> Touches(before, Mode) && Pressed(before, Mode) == (Has(flags, 0x400) || homeDown)
    ensures Pressed(before + KeyOf(flags, homeDown, b), Mode) == (Has(flags, 0x400) || homeDown)
    ensures Touches(before + KeyOf(flags, homeDown, b), Mode)
  {
    var last := KeyOf(flags, homeDown, b);
    PressedLater(before, last, Mode);
    if b.1 == Mode {
      assert (before + last)[|before|] == last[0];
    } else {
      TouchedBefore(before, last, Mode);
    }
  }

  lemma TouchedBefore(before: seq<Event>, more: seq<Event>, b: Button)
    requires Touches(before, b)
    ensures Touches(before + more, b)
  {
    var k :| 0 <= k < |before| && before[k].Key? && before[k].button == b;
    assert (before + more)[k] == before[k];
  }

  /** The table has Home in one row only. */
  lemma HomeInTable(k: nat)
    requires k < |PAD_BUTTONS|
    ensures PAD_BUTTONS[k].1 == Mode <==> k == HOME_ROW
    ensures k == HOME_ROW ==> PAD_BUTTONS[k].0 == 0x400
  {
  }

  /** Axes and the end of a packet touch no button. */
  lemma MovesTouchNothing(flags: nat, s: Sticks, b: Button)
    ensures !Touches(Moves(flags, s) + [Sync], b)
  {
  }

  /** What one packet does to Back and to Home. */
  lemma PacketAndBack(before: seq<Event>, tap: seq<Event>, keys: seq<Event>, more: seq<Event>)
    requires !Pressed(before, Select) && (tap == [] || tap == TAP)
    requires !Touches(keys, Select) && !Touches(more, Select)
    ensures !Pressed(before + (tap + keys + more), Select)
  {
    TapEndsUp(before, tap);
    PressedLater(before + tap, keys, Select);
    PressedLater(before + tap + keys, more, Select);
    assert before + (tap + keys + more) == before + tap + keys + more;
  }

  lemma TapEndsUp(before: seq<Event>, tap: seq<Event>)
    requires !Pressed(before, Select) && (tap == [] || tap == TAP)
    ensures !Pressed(before + tap, Select)
  {
    if tap == [] {
      assert before + tap == before;
    } else {
      var start := before + [Key(Select, true), Sync];
      PressedLater(start, [Key(Select, false), Sync], Select);
      assert [Key(Select, false), Sync][..1] == [Key(Select, false)];
      assert [Key(Select, false), Sync][0] == Key(Select, false);
      assert before + tap == start + [Key(Select, false), Sync];
    }
  }

  lemma PacketAndHome(before: seq<Event>, tap: seq<Event>, keys: seq<Event>, more: seq<Event>)
    requires Touches(keys, Mode) && !Touches(more, Mode)
    ensures Pressed(before + (tap + keys + more), Mode) == Pressed(keys, Mode)
  {
    PressedLater(before + tap, keys, Mode);
    PressedLater(before + tap + keys, more, Mode);
    assert before + (tap + keys + more) == before + tap + keys + more;
  }

  lemma EventsLeaveBack(before: seq<Event>, s: Pad, p: Packet)
    requires !Pressed(before, Select)
    ensures !Pressed(before + Events(s, p), Select)
  {
    var keys := Keys(p.flags, Step(s, p).homeDown, |PAD_BUTTONS|);
    KeysLeaveBack(p.flags, Step(s, p).homeDown, |PAD_BUTTONS|);
    MovesTouchNothing(p.flags, p.sticks, Select);
    PacketAndBack(before, if Taps(s, p) then TAP else [], keys, Moves(p.flags, p.sticks) + [Sync]);
  }

  /** Back is up after every packet, whatever came before. */
  lemma {:induction false} BackIsUp(ps: seq<Packet>, n: nat)
    requires n <= |ps|
    ensures !Pressed(AllEvents(ps, n), Select)
  {
    if n > 0 {
      BackIsUp(ps, n - 1);
      EventsLeaveBack(AllEvents(ps, n - 1), After(ps, n - 1), ps[n - 1]);
    }
  }

  /** After every packet the device has Home down if the controller has, or while a firing lasts. */
  lemma HomeIsPressed(ps: seq<Packet>, n: nat)
    requires 0 < n <= |ps|
    ensures Pressed(AllEvents(ps, n), Mode) <==> Guide(ps[n - 1]) || After(ps, n).homeDown
  {
    var s, p, rows := After(ps, n - 1), ps[n - 1], |PAD_BUTTONS|;
    KeysSetHome(p.flags, Step(s, p).homeDown, rows);
    MovesTouchNothing(p.flags, p.sticks, Mode);
    PacketAndHome(AllEvents(ps, n - 1), if Taps(s, p) then TAP else [], Keys(p.flags, Step(s, p).homeDown, rows),
                  Moves(p.flags, p.sticks) + [Sync]);
  }

  /**
   A firing reaches the device as a new press exactly when Home was up before: when the controller's
   own Home button was not down, and a packet has ended the firing before it.
   */
  lemma FiringIsSeen(ps: seq<Packet>, i: nat, f: nat)
    requires i < |ps| && FiresAt(ps, i) && LastFiring(ps, f, i)
    ensures Pressed(AllEvents(ps, i + 1), Mode)
    ensures !Pressed(AllEvents(ps, i), Mode) <==> !Guide(ps[i - 1]) && !Recent(ps, f, i)
  {
    FiringPresses(ps, i);
    HomeIsPressed(ps, i);
    HomeDownWhen(ps, f, i);
  }

  lemma FiringPresses(ps: seq<Packet>, i: nat)
    requires i < |ps| && FiresAt(ps, i)
    ensures Pressed(AllEvents(ps, i + 1), Mode)
  {
    HomeIsPressed(ps, i + 1);
    assert LastFiring(ps, i, i + 1);
    HomeDownWhen(ps, i, i + 1);
  }

  /** The first firing of all only has to find the controller's own Home button up. */
  lemma FirstFiringIsSeen(ps: seq<Packet>, i: nat)
    requires i < |ps| && FiresAt(ps, i) && !HomeFired(ps, 0, i)
    ensures Pressed(AllEvents(ps, i + 1), Mode)
    ensures i > 0 && (!Pressed(AllEvents(ps, i), Mode) <==> !Guide(ps[i - 1]))
  {
    FiringPresses(ps, i);
    FiresWhen(ps, i);
    HomeStaysUp(ps, i);
    HomeIsPressed(ps, i);
  }

  /** Back down at 0 and 750 ms, up at 760, down at 770 and 1520: two firings, one press of Home. */
  function TwoHolds(s: Sticks): (ps: seq<Packet>)
  {
    [Packet(BACK_FLAG, 0, s), Packet(BACK_FLAG, 750, s), Packet(0, 760, s),
     Packet(BACK_FLAG, 770, s), Packet(BACK_FLAG, 1520, s)]
  }

  lemma PadsOfTwoHolds(s: Sticks)
    ensures var ps := TwoHolds(s);
            && After(ps, 1) == Pad(true, false, false, 0, 0) && After(ps, 2) == Pad(true, true, true, 0, 750)
            && After(ps, 3) == Pad(false, true, true, 0, 750) && After(ps, 4) == Pad(true, false, true, 770, 750)
  {
    var ps := TwoHolds(s);
    assert After(ps, 1) == Step(FRESH, ps[0]);
    assert After(ps, 2) == Step(After(ps, 1), ps[1]);
    assert After(ps, 3) == Step(After(ps, 2), ps[2]);
  }

  lemma SecondFiringIsNotSeen(s: Sticks)
    ensures var ps := TwoHolds(s);
            FiresAt(ps, 1) && FiresAt(ps, 4) && LastFiring(ps, 1, 4) && Pressed(AllEvents(ps, 4), Mode)
  {
    var ps := TwoHolds(s);
    PadsOfTwoHolds(s);
    FiringIsSeen(ps, 4, 1);
  }

  // The same on the device, in what it is told

  /** What the device is told while packet i is handled. */
  ghost function Told(ps: seq<Packet>, i: nat): (events: seq<Event>)
    requires i < |ps|
    ensures AllEvents(ps, i + 1) == AllEvents(ps, i) + events && events == Events(After(ps, i), ps[i])
  {
    AllEvents(ps, i + 1)[|AllEvents(ps, i)|..]
  }

  /** How often and in which order a button is set. */
  ghost function Settings(events: seq<Event>, b: Button): seq<bool>
  {
    if events == [] then []
    else
      var e := events[|events| - 1];
      Settings(events[..|events| - 1], b) + if e.Key? && e.button == b then [e.on] else []
  }

  lemma {:induction false} SettingsJoin(a: seq<Event>, more: seq<Event>, b: Button)
    ensures Settings(a + more, b) == Settings(a, b) + Settings(more, b)
  {
    if more == [] {
      assert a + more == a;
    } else {
      var k := |more| - 1;
      SettingsJoin(a, more[..k], b);
      assert (a + more)[..|a| + k] == a + more[..k];
    }
  }

  lemma {:induction false} NotTouched(events: seq<Event>, b: Button)
    requires !Touches(events, b)
    ensures Settings(events, b) == []
  {
    if events != [] {
      NotTouched(events[..|events| - 1], b);
    }
  }

  /** The events of a packet set Back only for a tap, and then press it, and let it go after a report. */
  lemma BackInEvents(s: Pad, p: Packet)
    ensures !Taps(s, p) ==> Settings(Events(s, p), Select) == []
    ensures Taps(s, p) ==>
              && Settings(Events(s, p), Select) == [true, false] && |Events(s, p)| >= 4
              && Events(s, p)[..4] == [Key(Select, true), Sync, Key(Select, false), Sync]
  {
    var tap := if Taps(s, p) then TAP else [];
    var keys, moves := Keys(p.flags, Step(s, p).homeDown, |PAD_BUTTONS|), Moves(p.flags, p.sticks) + [Sync];
    KeysLeaveBack(p.flags, Step(s, p).homeDown, |PAD_BUTTONS|);
    MovesTouchNothing(p.flags, p.sticks, Select);
    NotTouched(keys, Select);
    NotTouched(moves, Select);
    SettingsJoin(tap + keys, moves, Select);
    SettingsJoin(tap, keys, Select);
    SettingsOfTap();
  }

  lemma SettingsOfTap()
    ensures Settings(TAP, Select) == [true, false]
  {
    assert TAP[..3] == [Key(Select, true), Sync, Key(Select, false)];
    assert TAP[..3][..2] == [Key(Select, true), Sync];
    assert [Key(Select, true), Sync][..1] == [Key(Select, true)];
    assert [Key(Select, true)][..0] == [];
  }

  ghost predicate HomeDownAfter(ps: seq<Packet>, i: nat)
    requires i < |ps|
  {
    Pressed(AllEvents(ps, i + 1), Mode)
  }

  /**
   A completed hold of Back on the device: if no packet saw it held for 750 ms, Back is pressed,
   reported, let go and reported when the hold ends; otherwise Back is not set, and Home went
   down at some packet of the hold.  While the hold lasts Back is never set.
   */
  lemma HoldOnDevice(ps: seq<Packet>, a: nat, b: nat)
    requires CompletedHold(ps, a, b)
    ensures forall i :: a <= i < b ==> Settings(Told(ps, i), Select) == []
    ensures var long := exists j :: a <= j < b && ps[j].nowMs - ps[a].nowMs >= 750;
            if long then
              && Settings(Told(ps, b), Select) == []
              && exists i :: a <= i < b && HomeDownAfter(ps, i)
            else
              && Settings(Told(ps, b), Select) == [true, false] && |Told(ps, b)| >= 4
              && Told(ps, b)[..4] == [Key(Select, true), Sync, Key(Select, false), Sync]
  {
    OneOutcome(ps, a, b);
    BackInEvents(After(ps, b), ps[b]);
    forall i | a <= i < b
      ensures Settings(Told(ps, i), Select) == []
    {
      BackInEvents(After(ps, i), ps[i]);
    }
    if HomeFired(ps, a, b) {
      var i :| a <= i < b && FiresAt(ps, i);
      FiringPresses(ps, i);
      assert HomeDownAfter(ps, i);
    }
  }

  /** Back is set only at the end of a hold. */
  lemma BackOnlyThen(ps: seq<Packet>, i: nat)
    requires i < |ps| && Settings(Told(ps, i), Select) != []
    ensures i > 0 && Back(ps[i - 1]) && !Back(ps[i])
  {
    BackInEvents(After(ps, i), ps[i]);
    TapsWhen(ps, i);
  }

  /** Packet f is the first of its hold of Back to come 750 ms after it began. */
  ghost predicate BecomesLong(ps: seq<Packet>, f: nat)
    requires f < |ps|
  {
    && Back(ps[f]) && ps[f].nowMs - ps[HoldStart(ps, f)].nowMs >= 750
    && forall j :: HoldStart(ps, f) <= j < f ==> ps[j].nowMs - ps[HoldStart(ps, f)].nowMs < 750
  }

  /** f is the latest packet before n at which a hold became long, and 120 ms have not passed since. */
  ghost predicate JustLong(ps: seq<Packet>, f: nat, n: nat)
    requires f < n <= |ps|
  {
    && BecomesLong(ps, f) && (forall j :: f < j < n ==> !BecomesLong(ps, j))
    && forall j :: f <= j < n ==> ps[j].nowMs - ps[f].nowMs < 120
  }

  /**
   Home on the device after packet n - 1: it is down if the controller has its own Home button
   down, or the latest hold of Back to become long did so less than 120 ms before every packet since.
   */
  lemma HomeOnDevice(ps: seq<Packet>, n: nat)
    requires 0 < n <= |ps|
    ensures Pressed(AllEvents(ps, n), Mode) <==>
            ps[n - 1].flags / 0x400 % 2 == 1 || exists f :: 0 <= f < n && JustLong(ps, f, n)
  {
    HomeIsPressed(ps, n);
    FiringIsLong(ps, n);
    if HomeFired(ps, 0, n) {
      var f := LatestFiring(ps, n);
      HomeDownWhen(ps, f, n);
      LatestIsJustLong(ps, f, n);
    } else {
      HomeStaysUp(ps, n);
      forall f | 0 <= f < n
        ensures !JustLong(ps, f, n)
      {
        assert !FiresAt(ps, f);
      }
    }
  }

  lemma FiringIsLong(ps: seq<Packet>, n: nat)
    requires n <= |ps|
    ensures forall j :: 0 <= j < n ==> (BecomesLong(ps, j) <==> FiresAt(ps, j))
  {
    forall j | 0 <= j < n
      ensures BecomesLong(ps, j) <==> FiresAt(ps, j)
    {
      FiresWhen(ps, j);
    }
  }

  lemma LatestIsJustLong(ps: seq<Packet>, f: nat, n: nat)
    requires f < n <= |ps| && LastFiring(ps, f, n)
    requires forall j :: 0 <= j < n ==> (BecomesLong(ps, j) <==> FiresAt(ps, j))
    ensures (exists g :: 0 <= g < n && JustLong(ps, g, n)) <==> Recent(ps, f, n)
  {
    if g :| 0 <= g < n && JustLong(ps, g, n) {
      assert FiresAt(ps, g);
      assert g == f;
    }
    if Recent(ps, f, n) {
      assert JustLong(ps, f, n);
    }
  }

  lemma {:induction false} LatestFiring(ps: seq<Packet>, n: nat) returns (f: nat)
    requires n <= |ps| && HomeFired(ps, 0, n)
    ensures LastFiring(ps, f, n)
  {
    if FiresAt(ps, n - 1) {
      f := n - 1;
    } else {
      f := LatestFiring(ps, n - 1);
    }
  }

  // The other buttons and the axes

  /** Later events do not set the button. */
  lemma {:induction false} PressedFrom(events: seq<Event>, i: nat, b: Button, on: bool)
    requires i < |events| && events[i] == Key(b, on)
    requires forall j :: i < j < |events| ==> !(events[j].Key? && events[j].button == b)
    ensures Pressed(events, b) == on
  {
    if i < |events| - 1 {
      PressedFrom(events[..|events| - 1], i, b, on);
    }
  }

  /** The keys of a packet, one for each button but Back. */
  function AllKeys(flags: nat, homeDown: bool): (keys: seq<Event>)
    ensures |keys| == 10
  {
    [Key(Start, Has(flags, 0x10)), Key(Mode, Has(flags, 0x400) || homeDown), Key(ThumbL, Has(flags, 0x40)),
     Key(ThumbR, Has(flags, 0x80)), Key(Tl, Has(flags, 0x100)), Key(Tr, Has(flags, 0x200)),
     Key(A, Has(flags, 0x1000)), Key(B, Has(flags, 0x2000)), Key(X, Has(flags, 0x4000)), Key(Y, Has(flags, 0x8000))]
  }

  lemma KeysAre(flags: nat, homeDown: bool)
    ensures |PAD_BUTTONS| == 11 && Keys(flags, homeDown, |PAD_BUTTONS|) == AllKeys(flags, homeDown)
  {
    var all := AllKeys(flags, homeDown);
    forall n | 0 < n <= 11
      ensures RowKey(flags, homeDown, n, all)
    {
      RowHasKey(flags, homeDown, n);
    }
    KeysSoFar(flags, homeDown, 11, all);
    assert all[..10] == all;
  }

  /** The second row is that of Back, which has no key. */
  ghost predicate RowKey(flags: nat, homeDown: bool, n: nat, all: seq<Event>)
    requires 0 < n <= |PAD_BUTTONS|
  {
    && 0 < |all| && n < |all| + 2
    && KeyOf(flags, homeDown, PAD_BUTTONS[n - 1]) == if n == 2 then [] else [all[if n == 1 then 0 else n - 2]]
  }

  lemma RowHasKey(flags: nat, homeDown: bool, n: nat)
    requires 0 < n <= |PAD_BUTTONS|
    ensures RowKey(flags, homeDown, n, AllKeys(flags, homeDown))
  {
  }

  lemma {:induction false} KeysSoFar(flags: nat, homeDown: bool, n: nat, all: seq<Event>)
    requires 0 < n <= |PAD_BUTTONS| == |all| + 1
    requires forall k :: 0 < k <= |PAD_BUTTONS| ==> RowKey(flags, homeDown, k, all)
    ensures Keys(flags, homeDown, n) == all[..if n == 1 then 1 else n - 1]
  {
    assert RowKey(flags, homeDown, n, all);
    var before := Keys(flags, homeDown, n - 1);
    if n == 1 {
      assert before == [];
      assert [all[0]] == all[..1];
    } else {
      KeysSoFar(flags, homeDown, n - 1, all);
      if n == 2 {
        assert before + [] == before;
      } else {
        assert all[..n - 2] + [all[n - 2]] == all[..n - 1];
      }
    }
  }

  lemma ButtonAt(before: seq<Event>, keys: seq<Event>, moves: seq<Event>, k: nat)
    requires k < |keys| && keys[k].Key? && !Touches(moves, keys[k].button)
    requires forall j :: k < j < |keys| ==> !(keys[j].Key? && keys[j].button == keys[k].button)
    ensures Pressed(before + keys + moves, keys[k].button) == keys[k].on
  {
    var events := before + keys + moves;
    forall j | |before| + k < j < |events|
      ensures !(events[j].Key? && events[j].button == keys[k].button)
    {
      if j < |before| + |keys| {
        assert events[j] == keys[j - |before|];
      } else {
        assert events[j] == moves[j - |before| - |keys|];
      }
    }
    PressedFrom(events, |before| + k, keys[k].button, keys[k].on);
  }

  lemma ButtonsOfKeys(before: seq<Event>, flags: nat, homeDown: bool, s: Sticks)
    ensures var events := before + AllKeys(flags, homeDown) + (Moves(flags, s) + [Sync]);
            forall k :: 0 <= k < 10 ==>
              Pressed(events, AllKeys(flags, homeDown)[k].button) == AllKeys(flags, homeDown)[k].on
  {
    forall k | 0 <= k < 10
      ensures Pressed(before + AllKeys(flags, homeDown) + (Moves(flags, s) + [Sync]),
                      AllKeys(flags, homeDown)[k].button) == AllKeys(flags, homeDown)[k].on
    {
      var keys := AllKeys(flags, homeDown);
      MovesTouchNothing(flags, s, keys[k].button);
      ButtonAt(before, keys, Moves(flags, s) + [Sync], k);
    }
  }

  /** Nine buttons of the device are down exactly when their bits are set in the latest packet. */
  lemma ButtonsOnDevice(ps: seq<Packet>, n: nat)
    requires 0 < n <= |ps|
    ensures var flags, events := ps[n - 1].flags, AllEvents(ps, n);
            && (Pressed(events, Start) <==> flags / 0x10 % 2 == 1)
            && (Pressed(events, ThumbL) <==> flags / 0x40 % 2 == 1)
            && (Pressed(events, ThumbR) <==> flags / 0x80 % 2 == 1)
            && (Pressed(events, Tl) <==> flags / 0x100 % 2 == 1)
            && (Pressed(events, Tr) <==> flags / 0x200 % 2 == 1)
            && (Pressed(events, A) <==> flags / 0x1000 % 2 == 1)
            && (Pressed(events, B) <==> flags / 0x2000 % 2 == 1)
            && (Pressed(events, X) <==> flags / 0x4000 % 2 == 1)
            && (Pressed(events, Y) <==> flags / 0x8000 % 2 == 1)
  {
    var s, p := After(ps, n - 1), ps[n - 1];
    var before, keys := AllEvents(ps, n - 1) + if Taps(s, p) then TAP else [], AllKeys(p.flags, Step(s, p).homeDown);
    KeysAre(p.flags, Step(s, p).homeDown);
    EventsSplit(ps, n);
    ButtonsOfKeys(before, p.flags, Step(s, p).homeDown, p.sticks);
    NineKeys(p.flags, Step(s, p).homeDown, AllEvents(ps, n));
  }

  lemma EventsSplit(ps: seq<Packet>, n: nat)
    requires 0 < n <= |ps|
    ensures var s, p := After(ps, n - 1), ps[n - 1];
            AllEvents(ps, n)
            == AllEvents(ps, n - 1) + (if Taps(s, p) then TAP else [])
                 + Keys(p.flags, Step(s, p).homeDown, |PAD_BUTTONS|) + (Moves(p.flags, p.sticks) + [Sync])
  {
    var s, p := After(ps, n - 1), ps[n - 1];
    var a, tap, keys, moves := AllEvents(ps, n - 1), if Taps(s, p) then TAP else [],
      Keys(p.flags, Step(s, p).homeDown, |PAD_BUTTONS|), Moves(p.flags, p.sticks) + [Sync];
    assert a + (tap + keys + moves) == a + tap + keys + moves;
  }

  lemma NineKeys(flags: nat, homeDown: bool, events: seq<Event>)
    requires forall k :: 0 <= k < 10 ==>
               Pressed(events, AllKeys(flags, homeDown)[k].button) == AllKeys(flags, homeDown)[k].on
    ensures (Pressed(events, Start) <==> Has(flags, 0x10)) && (Pressed(events, ThumbL) <==> Has(flags, 0x40))
    ensures (Pressed(events, ThumbR) <==> Has(flags, 0x80)) && (Pressed(events, Tl) <==> Has(flags, 0x100))
    ensures (Pressed(events, Tr) <==> Has(flags, 0x200)) && (Pressed(events, A) <==> Has(flags, 0x1000))
    ensures (Pressed(events, B) <==> Has(flags, 0x2000)) && (Pressed(events, X) <==> Has(flags, 0x4000))
    ensures Pressed(events, Y) <==> Has(flags, 0x8000)
  {
    var keys := AllKeys(flags, homeDown);
    assert keys[0].button == Start && keys[2].button == ThumbL && keys[3].button == ThumbR && keys[4].button == Tl;
    assert keys[5].button == Tr && keys[6].button == A && keys[7].button == B && keys[8].button == X;
    assert keys[9].button == Y;
  }

  /** The axis was last set to this value. */
  ghost predicate AxisIs(events: seq<Event>, axis: Axis, value: int)
  {
    exists i :: 0 <= i < |events| && LastMove(events, i, axis, value)
  }

  ghost predicate LastMove(events: seq<Event>, i: int, axis: Axis, value: int)
    requires 0 <= i < |events|
  {
    && events[i] == Move(axis, value)
    && forall j :: i < j < |events| ==> !(events[j].Move? && events[j].axis == axis)
  }

  lemma AxisAt(before: seq<Event>, moves: seq<Event>, k: nat)
    requires k < |moves| && moves[k].Move?
    requires forall j :: k < j < |moves| ==> !(moves[j].Move? && moves[j].axis == moves[k].axis)
    ensures AxisIs(before + moves, moves[k].axis, moves[k].value)
  {
    assert LastMove(before + moves, |before| + k, moves[k].axis, moves[k].value);
  }

  /** What a packet says the axes are; the device has its y axes the other way round. */
  ghost predicate AxesAre(events: seq<Event>, flags: nat, s: Sticks)
  {
    && AxisIs(events, HatX, (if flags / 8 % 2 == 1 then 1 else 0) - if flags / 4 % 2 == 1 then 1 else 0)
    && AxisIs(events, HatY, (if flags / 2 % 2 == 1 then 1 else 0) - if flags % 2 == 1 then 1 else 0)
    && AxisIs(events, StickX, s.leftX) && AxisIs(events, StickY, -s.leftY - 1)
    && AxisIs(events, StickRx, s.rightX) && AxisIs(events, StickRy, -s.rightY - 1)
    && AxisIs(events, TriggerZ, s.leftTrigger) && AxisIs(events, TriggerRz, s.rightTrigger)
  }

  /** The axes of the device after a packet are what it says, and the last thing the device is told is to report. */
  lemma AxesOnDevice(ps: seq<Packet>, n: nat)
    requires 0 < n <= |ps|
    ensures AxesAre(AllEvents(ps, n), ps[n - 1].flags, ps[n - 1].sticks)
    ensures |AllEvents(ps, n)| > 0 && AllEvents(ps, n)[|AllEvents(ps, n)| - 1] == Sync
  {
    var s, p := After(ps, n - 1), ps[n - 1];
    EventsSplit(ps, n);
    AxesOfMoves(AllEvents(ps, n), AllEvents(ps, n - 1) + (if Taps(s, p) then TAP else [])
                  + Keys(p.flags, Step(s, p).homeDown, |PAD_BUTTONS|), p.flags, p.sticks);
  }

  lemma AxesOfMoves(events: seq<Event>, before: seq<Event>, flags: nat, s: Sticks)
    requires events == before + (Moves(flags, s) + [Sync])
    ensures AxesAre(events, flags, s) && |events| > 0 && events[|events| - 1] == Sync
  {
    var moves := Moves(flags, s) + [Sync];
    AxisAt(before, moves, 0);
    AxisAt(before, moves, 1);
    AxisAt(before, moves, 2);
    AxisAt(before, moves, 3);
    AxisAt(before, moves, 4);
    AxisAt(before, moves, 5);
    AxisAt(before, moves, 6);
    AxisAt(before, moves, 7);
  }
}
