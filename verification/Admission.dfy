/** Budgeted admission: controllers hand out slots that reserve part of a budget; slots are
    moved between owners and give their reservation back once. Sizes are 64-bit words. */
module Admission {
  import opened Common

  function Wrap(x: int): nat { x % WORD }

  datatype Control = Control(budget: nat, inUse: nat, active: nat)

  /** A slot holds a reservation with one controller, or none. */
  datatype Slot = Slot(ctrl: Option<nat>, reserved: nat)

  const Disengaged := Slot(None, 0)

  /** The request fits the remaining budget, compared in 64-bit words. */
  predicate Fits(c: Control, size: nat) { Wrap(c.inUse + size) <= c.budget }

  /** The controller after a grant and what was reserved; None while the request waits. */
  function TryAcquire(c: Control, size: nat): Option<(Control, nat)> {
    if !Fits(c, size) && c.active != 0 then None
    else
      var reserved := if Fits(c, size) then size else c.budget;
      Some((Control(c.budget, Wrap(c.inUse + reserved), Wrap(c.active + 1)), reserved))
  }

  function Released(c: Control, reserved: nat): Control {
    Control(c.budget, Wrap(c.inUse - reserved), Wrap(c.active - 1))
  }

  // ---- The classes -----------------------------------------------------------------------

  class AdmissionControl {
    const budget: nat
    var inUse: nat
    var active: nat

    function State(): Control
      reads this
    {
      Control(budget, inUse, active)
    }

    constructor (budget: nat)
      ensures State() == Control(budget, 0, 0)
    {
      this.budget := budget;
      inUse, active := 0, 0;
    }

    /** One look at the waiting condition and, if it holds, the reservation. */
    method Acquire(size: nat) returns (reserved: Option<nat>)
      modifies this
      ensures match TryAcquire(old(State()), size)
              case None => reserved == None && State() == old(State())
              case Some(grant) => reserved == Some(grant.1) && State() == grant.0
    {
      if Wrap(inUse + size) > budget && active != 0 { return None; }
      var r := budget;
      if Wrap(inUse + size) <= budget { r := size; }
      inUse := Wrap(inUse + r);
      active := Wrap(active + 1);
      return Some(r);
    }

    method Release(reserved: nat)
      modifies this
      ensures State() == Released(old(State()), reserved)
    {
      inUse := Wrap(inUse - reserved);
      active := Wrap(active - 1);
    }
  }

  class SlotObject {
    var ctrl: AdmissionControl?
    var reserved: nat

    constructor (ctrl: AdmissionControl?, reserved: nat)
      ensures this.ctrl == ctrl && this.reserved == reserved
    {
      this.ctrl, this.reserved := ctrl, reserved;
    }

    constructor MoveFrom(o: SlotObject)
      modifies o
      ensures ctrl == old(o.ctrl) && reserved == old(o.reserved) && o.ctrl == null && o.reserved == 0
    {
      ctrl, reserved := o.ctrl, o.reserved;
      o.ctrl, o.reserved := null, 0;
    }

    /** Assigning a slot to itself changes nothing; otherwise the old reservation is
        released once and the other slot's is taken over. */
    method MoveAssign(o: SlotObject)
      modifies this, o, ctrl
      ensures o == this ==> ctrl == old(ctrl) && reserved == old(reserved)
      ensures o != this ==> ctrl == old(o.ctrl) && reserved == old(o.reserved) && o.ctrl == null && o.reserved == 0
      ensures old(ctrl) != null ==>
                old(ctrl).State() == if o == this then old(ctrl.State()) else Released(old(ctrl.State()), old(reserved))
    {
      if this != o {
        if ctrl != null { ctrl.Release(reserved); }
        ctrl, reserved := o.ctrl, o.reserved;
        o.ctrl, o.reserved := null, 0;
      }
    }

    method Destroy()
      modifies ctrl
      ensures ctrl != null ==> ctrl.State() == Released(old(ctrl.State()), reserved)
    {
      if ctrl != null { ctrl.Release(reserved); }
    }
  }

  // ---- Runs over any controllers and slots -----------------------------------------------

  datatype World = World(controls: seq<Control>, slots: seq<Slot>)

  datatype Action =
    | Acquire(c: nat, size: nat)
    | Stopped                          // a wait that was stopped returns an empty slot
    | MoveConstruct(from: nat)
    | MoveAssign(to: nat, from: nat)
    | Destroy(s: nat)

  /** Gives back what slot `s` holds, if anything; the slot itself is not changed. */
  function GiveBack(w: World, s: nat): seq<Control>
    requires s < |w.slots|
  {
    match w.slots[s].ctrl
    case None => w.controls
    case Some(c) =>
      if c < |w.controls| then w.controls[c := Released(w.controls[c], w.slots[s].reserved)] else w.controls
  }

  ghost predicate Next(w: World, a: Action, w': World) {
    match a
    case Acquire(c, size) =>
      && c < |w.controls| && size < WORD && TryAcquire(w.controls[c], size).Some?
      && var grant := TryAcquire(w.controls[c], size).value;
         w' == World(w.controls[c := grant.0], w.slots + [Slot(Some(c), grant.1)])
    case Stopped => w' == World(w.controls, w.slots + [Disengaged])
    case MoveConstruct(from) =>
      && from < |w.slots|
      && w' == World(w.controls, w.slots[from := Disengaged] + [w.slots[from]])
    case MoveAssign(to, from) =>
      && from < |w.slots| && to < |w.slots|
      && w' == if to == from then w
               else World(GiveBack(w, to), w.slots[to := w.slots[from]][from := Disengaged])
    case Destroy(s) =>
      && s < |w.slots|
      && w' == World(GiveBack(w, s), w.slots[..s] + w.slots[s + 1..])
  }

  /** The sum does not wrap, nor does the count of slots. */
  predicate NoWrap(w: World, a: Action) {
    match a
    case Acquire(c, size) =>
      c < |w.controls| ==> w.controls[c].inUse + size < WORD && w.controls[c].active + 1 < WORD
    case _ => true
  }

  ghost predicate Init(w: World) {
    && w.slots == []
    && forall c :: 0 <= c < |w.controls| ==>
         w.controls[c].budget < WORD && w.controls[c].inUse == 0 && w.controls[c].active == 0
  }

  ghost predicate Run(ws: seq<World>, acts: seq<Action>) {
    && |ws| == |acts| + 1 && Init(ws[0])
    && forall i :: 0 <= i < |acts| ==> Next(ws[i], acts[i], ws[i + 1]) && NoWrap(ws[i], acts[i])
  }

  // ---- What is live ----------------------------------------------------------------------

  datatype Unit = Budget | Slots

  /** A slot's part in what is live with controller `c`: its reservation, or itself. */
  function Part(u: Unit, c: nat, s: Slot): nat {
    if s.ctrl != Some(c) then 0 else match u case Budget => s.reserved case Slots => 1
  }

  function Live(u: Unit, c: nat, slots: seq<Slot>): nat {
    if slots == [] then 0 else Part(u, c, slots[0]) + Live(u, c, slots[1..])
  }

  lemma {:induction false} LiveConcat(u: Unit, c: nat, a: seq<Slot>, b: seq<Slot>)
    ensures Live(u, c, a + b) == Live(u, c, a) + Live(u, c, b)
  {
    if a == [] {
      assert a + b == b;
    } else {
      assert (a + b)[1..] == a[1..] + b;
      LiveConcat(u, c, a[1..], b);
    }
  }

  /** One slot's part can be taken out of the total. */
  lemma LiveSplit(u: Unit, c: nat, slots: seq<Slot>, i: nat)
    requires i < |slots|
    ensures Live(u, c, slots) == Live(u, c, slots[..i] + slots[i + 1..]) + Part(u, c, slots[i])
  {
    assert slots == slots[..i] + ([slots[i]] + slots[i + 1..]);
    LiveConcat(u, c, slots[..i], [slots[i]] + slots[i + 1..]);
    LiveConcat(u, c, slots[..i], slots[i + 1..]);
    assert ([slots[i]] + slots[i + 1..])[1..] == slots[i + 1..];
  }

  lemma LiveUpdate(u: Unit, c: nat, slots: seq<Slot>, i: nat, s: Slot)
    requires i < |slots|
    ensures Live(u, c, slots[i := s]) == Live(u, c, slots) - Part(u, c, slots[i]) + Part(u, c, s)
  {
    var t := slots[i := s];
    assert t[..i] + t[i + 1..] == slots[..i] + slots[i + 1..];
    LiveSplit(u, c, slots, i);
    LiveSplit(u, c, t, i);
  }

  lemma LiveAppend(u: Unit, c: nat, slots: seq<Slot>, s: Slot)
    ensures Live(u, c, slots + [s]) == Live(u, c, slots) + Part(u, c, s)
  {
    LiveConcat(u, c, slots, [s]);
    assert Live(u, c, [s]) == Part(u, c, s) + Live(u, c, [s][1..]);
  }

  /** Some slot is live exactly when the count is not zero. */
  lemma {:induction false} LiveHas(c: nat, slots: seq<Slot>)
    ensures Live(Slots, c, slots) > 0 <==> exists i :: 0 <= i < |slots| && slots[i].ctrl == Some(c)
    ensures Live(Slots, c, slots) == 0 ==> Live(Budget, c, slots) == 0
  {
    if slots != [] {
      LiveHas(c, slots[1..]);
      if exists i :: 0 <= i < |slots[1..]| && slots[1..][i].ctrl == Some(c) {
        var i :| 0 <= i < |slots[1..]| && slots[1..][i].ctrl == Some(c);
        assert slots[i + 1].ctrl == Some(c);
      }
    }
  }

  // ---- The law ---------------------------------------------------------------------------

  /** The controller's two counters are the total and the number of the live reservations,
      and the budget is not exceeded. */
  ghost predicate Accounts(ctrl: Control, c: nat, slots: seq<Slot>) {
    && ctrl.inUse == Live(Budget, c, slots) <= ctrl.budget < WORD
    && ctrl.active == Live(Slots, c, slots) < WORD
  }

  ghost predicate Law(w: World) {
    && (forall c: nat :: c < |w.controls| ==> Accounts(w.controls[c], c, w.slots))
    && (forall i :: 0 <= i < |w.slots| ==>
          match w.slots[i].ctrl case None => w.slots[i].reserved == 0 case Some(c) => c < |w.controls|)
  }

  lemma AcquireKeeps(w: World, a: Action, w': World)
    requires Law(w) && a.Acquire? && Next(w, a, w') && NoWrap(w, a)
    ensures Law(w')
  {
    forall c: nat | c < |w'.controls| ensures Accounts(w'.controls[c], c, w'.slots) {
      GrantAccounts(w, a, w', c);
    }
  }

  lemma GrantAccounts(w: World, a: Action, w': World, c: nat)
    requires Law(w) && a.Acquire? && Next(w, a, w') && NoWrap(w, a) && c < |w.controls|
    ensures Accounts(w'.controls[c], c, w'.slots)
  {
    var s := Slot(Some(a.c), TryAcquire(w.controls[a.c], a.size).value.1);
    assert Accounts(w.controls[c], c, w.slots);
    LiveAppend(Budget, c, w.slots, s);
    LiveAppend(Slots, c, w.slots, s);
    LiveHas(c, w.slots);
    hide Live, Law;
  }

  /** Giving back slot `s` and dropping it from the live ones balance out. */
  lemma GiveBackBalances(w: World, s: nat, c: nat)
    requires Law(w) && s < |w.slots| && c < |w.controls|
    ensures |GiveBack(w, s)| == |w.controls|
    ensures Accounts(GiveBack(w, s)[c], c, w.slots[s := Disengaged])
  {
    assert Accounts(w.controls[c], c, w.slots);
    LiveUpdate(Budget, c, w.slots, s, Disengaged);
    LiveUpdate(Slots, c, w.slots, s, Disengaged);
  }

  lemma MoveKeeps(w: World, a: Action, w': World)
    requires Law(w) && (a.MoveConstruct? || a.MoveAssign?) && Next(w, a, w')
    ensures Law(w')
  {
    forall c: nat | c < |w'.controls| ensures Accounts(w'.controls[c], c, w'.slots) {
      assert Accounts(w.controls[c], c, w.slots);
      if a.MoveConstruct? {
        var x := w.slots[a.from];
        LiveUpdate(Budget, c, w.slots, a.from, Disengaged);
        LiveUpdate(Slots, c, w.slots, a.from, Disengaged);
        LiveAppend(Budget, c, w.slots[a.from := Disengaged], x);
        LiveAppend(Slots, c, w.slots[a.from := Disengaged], x);
      } else if a.to != a.from {
        MoveAssignAccounts(w, a.to, a.from, c);
      }
    }
  }

  lemma MoveAssignAccounts(w: World, to: nat, from: nat, c: nat)
    requires Law(w) && to < |w.slots| && from < |w.slots| && to != from && c < |w.controls|
    ensures |GiveBack(w, to)| == |w.controls|
    ensures Accounts(GiveBack(w, to)[c], c, w.slots[to := w.slots[from]][from := Disengaged])
  {
    GiveBackBalances(w, to, c);
    var freed, x := w.slots[to := Disengaged], w.slots[from];
    assert w.slots[to := x] == freed[to := x];
    LiveUpdate(Budget, c, freed, to, x);
    LiveUpdate(Slots, c, freed, to, x);
    LiveUpdate(Budget, c, freed[to := x], from, Disengaged);
    LiveUpdate(Slots, c, freed[to := x], from, Disengaged);
  }

  lemma DestroyKeeps(w: World, a: Action, w': World)
    requires Law(w) && a.Destroy? && Next(w, a, w')
    ensures Law(w')
  {
    var freed := w.slots[a.s := Disengaged];
    assert freed[..a.s] + freed[a.s + 1..] == w'.slots;
    forall c: nat | c < |w'.controls| ensures Accounts(w'.controls[c], c, w'.slots) {
      GiveBackBalances(w, a.s, c);
      LiveSplit(Budget, c, freed, a.s);
      LiveSplit(Slots, c, freed, a.s);
    }
  }

  lemma StoppedKeeps(w: World, w': World)
    requires Law(w) && Next(w, Stopped, w')
    ensures Law(w')
  {
    forall c: nat | c < |w'.controls| ensures Accounts(w'.controls[c], c, w'.slots) {
      assert Accounts(w.controls[c], c, w.slots);
      LiveAppend(Budget, c, w.slots, Disengaged);
      LiveAppend(Slots, c, w.slots, Disengaged);
    }
  }

  /** In every state of every run the counters account for exactly the live slots. */
  lemma {:induction false} RunKeepsLaw(ws: seq<World>, acts: seq<Action>, n: nat)
    requires Run(ws, acts) && n < |ws|
    ensures Law(ws[n])
  {
    if n > 0 {
      RunKeepsLaw(ws, acts, n - 1);
      var w, a, w' := ws[n - 1], acts[n - 1], ws[n];
      assert Next(w, a, ws[n - 1 + 1]) && NoWrap(w, a);
      match a
      case Acquire(_, _) => AcquireKeeps(w, a, w');
      case Stopped => StoppedKeeps(w, w');
      case MoveConstruct(_) => MoveKeeps(w, a, w');
      case MoveAssign(_, _) => MoveKeeps(w, a, w');
      case Destroy(_) => DestroyKeeps(w, a, w');
    }
  }

  /** An idle controller grants any request; a waiting one always has a live slot to wait
      for. A grant that is not of the size asked for happens only with no other slot live and
      takes the whole budget; so does every grant of more than the budget whose sum does not
      wrap. */
  lemma GrantRules(w: World, c: nat, size: nat)
    requires Law(w) && c < |w.controls| && size < WORD
    ensures TryAcquire(w.controls[c], size).None? ==> exists i :: 0 <= i < |w.slots| && w.slots[i].ctrl == Some(c)
    ensures TryAcquire(w.controls[c], size).Some? && TryAcquire(w.controls[c], size).value.1 != size ==>
              && size > w.controls[c].budget == TryAcquire(w.controls[c], size).value.1
              && forall i :: 0 <= i < |w.slots| ==> w.slots[i].ctrl != Some(c)
    ensures TryAcquire(w.controls[c], size).Some? && size > w.controls[c].budget &&
            w.controls[c].inUse + size < WORD ==>
              && TryAcquire(w.controls[c], size).value.1 == w.controls[c].budget
              && forall i :: 0 <= i < |w.slots| ==> w.slots[i].ctrl != Some(c)
  {
    assert Accounts(w.controls[c], c, w.slots);
    LiveHas(c, w.slots);
  }

  /** While the sum fits a word, a request is granted exactly when it fits what the live slots
      leave of the budget, and then all of it, or when no slot is live, and then the budget. */
  lemma GrantedIff(w: World, c: nat, size: nat)
    requires Law(w) && c < |w.controls| && Live(Budget, c, w.slots) + size < WORD
    ensures var fits := Live(Budget, c, w.slots) + size <= w.controls[c].budget;
            var r := TryAcquire(w.controls[c], size);
            && (r.Some? <==> fits || forall i :: 0 <= i < |w.slots| ==> w.slots[i].ctrl != Some(c))
            && (r.Some? ==> r.value.1 == if fits then size else w.controls[c].budget)
  {
    assert Accounts(w.controls[c], c, w.slots);
    LiveHas(c, w.slots);
    var sum := Live(Budget, c, w.slots) + size;
    ModUnique(sum, WORD, 0, sum);
    hide Live, Law;
  }

  /** Granting and then destroying the slot leaves the controllers and the other slots as
      they were. */
  lemma GrantThenDestroy(w: World, a: Action, w1: World, w2: World)
    requires Law(w) && a.Acquire? && NoWrap(w, a)
    requires Next(w, a, w1) && Next(w1, Destroy(|w.slots|), w2)
    ensures w2 == w
  {
    assert Accounts(w.controls[a.c], a.c, w.slots);
    hide Wrap, Law, Live;
    var ctrl, n := w.controls[a.c], |w.slots|;
    var reserved := TryAcquire(ctrl, a.size).value.1;
    WrapBack(ctrl.inUse, reserved);
    WrapBack(ctrl.active, 1);
    assert w1.slots[n] == Slot(Some(a.c), reserved) && w1.slots[..n] == w.slots && w1.slots[n + 1..] == [];
    assert w2.controls == w.controls;
  }

  /** Adding and taking off again cancel out, whether the sum wraps or not. */
  lemma WrapBack(x: nat, more: nat)
    requires x < WORD
    ensures Wrap(Wrap(x + more) - more) == x
  {
    var q := (x + more) / WORD;
    assert Wrap(x + more) == x + more - WORD * q;
    ModUnique(x - WORD * q, WORD, -q, x);
  }

  /** With a granted request whose sum wraps, the law fails. So a grant keeps the law if and
      only if the sum and the slot count fit a word. */
  lemma GrantKeepsLawIff(w: World, a: Action, w': World)
    requires Law(w) && a.Acquire? && Next(w, a, w')
    ensures Law(w') <==> NoWrap(w, a)
  {
    if NoWrap(w, a) {
      AcquireKeeps(w, a, w');
    } else {
      var c, s := a.c, Slot(Some(a.c), TryAcquire(w.controls[a.c], a.size).value.1);
      assert Accounts(w.controls[c], c, w.slots);
      LiveHas(c, w.slots);
      LiveAppend(Budget, c, w.slots, s);
      LiveAppend(Slots, c, w.slots, s);
      assert !Accounts(w'.controls[c], c, w'.slots);
    }
  }

  /** One unit is reserved and the largest word is asked for: the sum wraps to zero, so it
      is granted although it exceeds the budget. */
  lemma WrapGrants() returns (w: World, a: Action, w': World)
    ensures Law(w) && Next(w, a, w') && !Law(w')
    ensures a.Acquire? && a.c < |w.controls| && a.size > w.controls[a.c].budget && w.controls[a.c].active > 0
  {
    w := World([Control(100, 1, 1)], [Slot(Some(0), 1)]);
    a := Action.Acquire(0, WORD - 1);
    w' := World([Control(100, 0, 2)], w.slots + [Slot(Some(0), WORD - 1)]);
    assert Live(Budget, 0, w.slots) == 1 && Live(Slots, 0, w.slots) == 1;
    assert Accounts(w.controls[0], 0, w.slots);
    GrantKeepsLawIff(w, a, w');
  }
}
