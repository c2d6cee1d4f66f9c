/**
 The class `Resources` (liburb/source/resources.cpp): a vector of entries that the operations update in place.
 Each method is tied to the function of the old vector that the other modules reason about.
 */
module MesosResources {
  import opened Wrappers
  import opened Values
  import opened ResourceModel
  import opened Entries
  import opened Containment
  import opened Validation
  import opened Collections
  import opened Operations
  import opened Conservation
  import opened Search
  import Checkpoint

  /** How `apply` ends: with new resources, with an error, or in a failed CHECK. */
  datatype Outcome = Applied(resources: Resources) | Rejected | Aborted

  class Resources {
    var resources: seq<Entry>

    /** The class invariant: no empty or negative entry, no two addable ones. */
    ghost predicate Valid()
      reads this
    {
      Entries.Valid(resources)
    }

    constructor ()
      ensures resources == [] && Valid()
    {
      resources := [];
    }

    constructor Copy(entries: seq<Entry>)
      ensures resources == entries
    {
      resources := entries;
    }

    /** `Resources(const vector<Resource>&)` */
    constructor FromMessages(messages: seq<Resource>)
      ensures resources == FromList([], messages)
      ensures AllProper(messages) ==> Valid()
    {
      resources := [];
      new;
      var i := 0;
      while i < |messages|
        invariant 0 <= i <= |messages|
        invariant FromList(resources, messages[i..]) == FromList([], messages)
      {
        AddMessage(messages[i]);
        assert messages[i..][1..] == messages[i + 1..];
        i := i + 1;
      }
      if AllProper(messages) { FromListLaw(messages); }
    }

    /** `add` */
    method Add(that: Entry)
      modifies this
      ensures resources == Entries.Add(old(resources), that)
      ensures old(Valid()) && Stored(that) ==> Valid()
    {
      if old(Valid()) && Stored(that) { AddLaw(resources, that); }
      if EntryEmpty(that) {
        return;
      }
      ghost var first := MergeCases(resources, that);
      var i := 0;
      while i < |resources|
        invariant 0 <= i <= first
        invariant resources == old(resources)
      {
        if Addable(resources[i].resource, that.resource) {
          resources := resources[i := EntryPlus(resources[i], that)];
          return;
        }
        i := i + 1;
      }
      resources := resources + [that];
    }

    /** `operator+=(Resource)`: invalid messages are ignored. */
    method AddMessage(r: Resource)
      modifies this
      ensures resources == AddResource(old(resources), r)
    {
      if Validate(r) {
        Add(Wrap(r));
      }
    }

    /** `subtract`: an entry that became negative or empty is overwritten by the last one. */
    method Subtract(that: Entry)
      modifies this
      ensures resources == Entries.Subtract(old(resources), that)
      ensures old(Valid()) && Stored(that) ==> Valid()
    {
      if old(Valid()) && Stored(that) { SubtractLaw(resources, that); }
      if EntryEmpty(that) {
        return;
      }
      var i := 0;
      while i < |resources|
        invariant 0 <= i <= FirstSubtractable(old(resources), that)
        invariant resources == old(resources)
      {
        if Subtractable(resources[i].resource, that.resource) {
          resources := resources[i := EntryMinus(resources[i], that)];
          if EntryNegative(resources[i]) || EntryEmpty(resources[i]) {
            resources := resources[i := resources[|resources| - 1]];
            resources := resources[..|resources| - 1];
            assert resources == SwapRemove(old(resources), i);
          }
          return;
        }
        i := i + 1;
      }
    }

    /** `operator+=(Resources)` */
    method AddAll(that: seq<Entry>)
      modifies this
      ensures resources == Collections.AddAll(old(resources), that)
    {
      var i := 0;
      while i < |that|
        invariant 0 <= i <= |that|
        invariant Collections.AddAll(resources, that[i..]) == Collections.AddAll(old(resources), that)
      {
        Add(that[i]);
        assert that[i..][1..] == that[i + 1..];
        i := i + 1;
      }
    }

    /** `operator-=(Resources)` */
    method SubtractAll(that: seq<Entry>)
      modifies this
      ensures resources == Collections.SubtractAll(old(resources), that)
    {
      var i := 0;
      while i < |that|
        invariant 0 <= i <= |that|
        invariant Collections.SubtractAll(resources, that[i..]) == Collections.SubtractAll(old(resources), that)
      {
        Subtract(that[i]);
        assert that[i..][1..] == that[i + 1..];
        i := i + 1;
      }
    }

    /** `_contains` */
    method ContainsEntry(that: Entry) returns (found: bool)
      ensures found == Containment.ContainsEntry(resources, that)
    {
      for i := 0 to |resources|
        invariant forall j :: 0 <= j < i ==> !EntryContains(resources[j], that)
      {
        if EntryContains(resources[i], that) {
          return true;
        }
      }
      return false;
    }

    /** `contains(Resource)` */
    method ContainsMessage(r: Resource) returns (found: bool)
      ensures found == ContainsResource(resources, r)
    {
      if !Validate(r) {
        return false;
      }
      found := ContainsEntry(Wrap(r));
    }

    /** `contains(Resources)`: the consuming loop over a copy. */
    method Contains(that: seq<Entry>) returns (contained: bool)
      ensures contained == Containment.Contains(resources, that)
      ensures Valid() && Entries.Valid(that) ==> (contained <==> Covers(resources, that))
    {
      if Valid() && Entries.Valid(that) { ContainsMeaning(resources, that); }
      var remaining := new Resources.Copy(resources);
      var i := 0;
      while i < |that|
        invariant 0 <= i <= |that|
        invariant Containment.Contains(remaining.resources, that[i..]) == Containment.Contains(resources, that)
        invariant fresh(remaining)
      {
        assert that[i..][1..] == that[i + 1..];
        var found := remaining.ContainsEntry(that[i]);
        if !found {
          return false;
        }
        if IsPersistentVolume(that[i].resource) {
          remaining.Subtract(that[i]);
        }
        i := i + 1;
      }
      return true;
    }

    /** `operator==` */
    method Equals(that: Resources) returns (equal: bool)
      ensures equal == Equal(resources, that.resources)
    {
      equal := this.Contains(that.resources);
      if equal {
        equal := that.Contains(resources);
      }
    }

    /** `filter` */
    method FilterBy(p: RolePredicate) returns (result: Resources)
      ensures fresh(result) && result.resources == Filter([], resources, p)
      ensures Valid() ==> result.resources == Select(resources, p)
    {
      if Valid() { FilterSelects([], resources, p); }
      result := new Resources();
      var i := 0;
      while i < |resources|
        invariant 0 <= i <= |resources| && fresh(result)
        invariant Filter(result.resources, resources[i..], p) == Filter([], resources, p)
      {
        assert resources[i..][1..] == resources[i + 1..];
        if Matches(p, resources[i].resource) {
          result.Add(resources[i]);
        }
        i := i + 1;
      }
    }

    /** `toUnreserved` */
    method Unreserve() returns (result: Resources)
      ensures fresh(result) && result.resources == ToUnreserved(resources)
    {
      result := new Resources();
      var i := 0;
      while i < |resources|
        invariant 0 <= i <= |resources| && fresh(result)
        invariant Collections.AddAll(result.resources, Cleared(resources)[i..]) == ToUnreserved(resources)
      {
        assert Cleared(resources)[i..][1..] == Cleared(resources)[i + 1..];
        result.Add(WithReservations(resources[i], []));
        i := i + 1;
      }
    }

    /** `popReservation` */
    method PopReservations() returns (result: Resources)
      requires AllReserved(resources)
      ensures fresh(result) && result.resources == PopReservation(resources)
    {
      result := new Resources();
      var i := 0;
      while i < |resources|
        invariant 0 <= i <= |resources| && fresh(result)
        invariant Collections.AddAll(result.resources, Popped(resources)[i..]) == PopReservation(resources)
      {
        assert Popped(resources)[i..][1..] == Popped(resources)[i + 1..];
        result.Add(resources[i].(resource := Pop(resources[i].resource)));
        i := i + 1;
      }
    }

    /** One message of the vector, without its reservations. */
    static method UnreservedMessage(e: Entry) returns (result: Resources)
      ensures fresh(result) && result.resources == UnreservedForm(e)
    {
      var single := new Resources.FromMessages([e.resource]);
      result := single.Unreserve();
    }

    /** The inner loop of `find`: stop at the first entry that has all that remains, or is part of it. */
    static method ScanFor(entries: seq<Entry>, remaining: Resources) returns (outcome: Scanned)
      ensures outcome == Scan(entries, remaining.resources)
    {
      var i := 0;
      while i < |entries|
        invariant 0 <= i <= |entries|
        invariant Scan(entries[i..], remaining.resources) == Scan(entries, remaining.resources)
      {
        assert entries[i..][1..] == entries[i + 1..];
        var unreserved := UnreservedMessage(entries[i]);
        var enough := unreserved.Contains(remaining.resources);
        if enough {
          return Enough(entries[i]);
        }
        var part := remaining.Contains(unreserved.resources);
        if part {
          return Part(entries[i]);
        }
        i := i + 1;
      }
      return Nothing;
    }

    /** A part goes from what is left of the vector to what is found, and out of what remains. */
    static method TakePart(total: Resources, found: Resources, remaining: Resources, e: Entry)
      requires found != total && found != remaining && total != remaining
      modifies total, found, remaining
      ensures total.resources == Entries.Subtract(old(total.resources), e)
      ensures found.resources == Entries.Add(old(found.resources), e)
      ensures remaining.resources == Collections.SubtractAll(old(remaining.resources), UnreservedForm(e))
    {
      var unreserved := UnreservedMessage(e);
      found.Add(e);
      total.Subtract(e);
      remaining.SubtractAll(unreserved.resources);
    }

    /** `find(Resource)`: the greedy search through the role predicates. */
    method FindMessage(target: Resource) returns (result: Option<Resources>)
      ensures result.Some? == Find(resources, target).Some?
      ensures result.Some? ==> fresh(result.value) && result.value.resources == Find(resources, target).value
    {
      var found := new Resources();
      var total := new Resources.Copy(resources);
      var wanted := new Resources.FromMessages([target]);
      var remaining := wanted.Unreserve();
      var predicates := Predicates(target);
      ghost var answer := Find(resources, target);
      var i := 0;
      while i < |predicates|
        invariant 0 <= i <= |predicates|
        invariant fresh(found) && fresh(total) && fresh(remaining)
        invariant found != total && found != remaining && total != remaining
        invariant FindIn(total.resources, found.resources, remaining.resources, predicates[i..]) == answer
      {
        assert predicates[i..][1..] == predicates[i + 1..];
        var filtered := total.FilterBy(predicates[i]);
        var scanned := ScanFor(filtered.resources, remaining);
        match scanned {
          case Nothing =>
          case Enough(e) =>
            found.AddAll(Reserve(remaining.resources, e.resource.reservations));
            return Some(found);
          case Part(e) =>
            TakePart(total, found, remaining, e);
        }
        i := i + 1;
      }
      return None;
    }

    /** One operand of RESERVE, UNRESERVE, CREATE or DESTROY; after a refusal the copy is discarded. */
    method Operate(kind: ChangeKind, r: Resource) returns (ok: bool)
      requires Validate(r)
      modifies this
      ensures ok == Step(kind, old(resources), r).Ok?
      ensures ok ==> resources == Step(kind, old(resources), r).value
    {
      match kind {
        case RESERVE =>
          if !IsDynamicallyReserved(r) {
            return false;
          }
          var popped := PopMessage(r);
          ok := this.Contains(popped.resources);
          if ok {
            SubtractAll(popped.resources);
            Add(Wrap(r));
          }
        case UNRESERVE =>
          if !IsDynamicallyReserved(r) {
            return false;
          }
          ok := ContainsMessage(r);
          if ok {
            var popped := PopMessage(r);
            Subtract(Wrap(r));
            AddAll(popped.resources);
          }
        case CREATE =>
          if !IsPersistentVolume(r) {
            return false;
          }
          ok := ContainsMessage(Strip(r));
          if ok {
            Subtract(Wrap(Strip(r)));
            Add(Wrap(r));
          }
        case DESTROY =>
          if !IsPersistentVolume(r) {
            return false;
          }
          ok := ContainsMessage(r);
          if ok {
            Subtract(Wrap(r));
            var more := ContainsMessage(r);
            if more {
              return false;
            }
            Add(Wrap(Strip(r)));
          }
      }
    }

    /** The loop over the operands of an operation. */
    method OperateAll(kind: ChangeKind, operands: seq<Resource>) returns (ok: bool)
      requires forall i :: 0 <= i < |operands| ==> Validate(operands[i])
      modifies this
      ensures ok == Steps(kind, old(resources), operands).Ok?
      ensures ok ==> resources == Steps(kind, old(resources), operands).value
    {
      var i := 0;
      StepsStart(kind, resources, operands);
      while i < |operands|
        invariant 0 <= i <= |operands|
        invariant StepsFrom(kind, resources, operands, i) == Steps(kind, old(resources), operands)
      {
        StepsNext(kind, resources, operands, i);
        ok := Operate(kind, operands[i]);
        if !ok {
          return;
        }
        i := i + 1;
      }
      return true;
    }

    static method PopMessage(r: Resource) returns (result: Resources)
      requires Validate(r) && !IsUnreserved(r)
      ensures fresh(result) && result.resources == PoppedResources(r)
    {
      SinglePopped(r);
      var single := new Resources.FromMessages([r]);
      result := single.PopReservations();
    }

    /** `get<Value::Scalar>(name)` */
    method GetScalar(name: string) returns (total: Option<int>)
      ensures total == ScalarTotal(resources, name)
    {
      var found, sum := false, 0;
      ghost var a := Named(name, SCALAR);
      for i := 0 to |resources|
        invariant sum == Balance(resources[..i], a).num
        invariant found <==> Present(resources, i, a)
      {
        var r := resources[i].resource;
        BalanceNext(resources, i, a);
        PresentNext(resources, i, a);
        if r.name == name && r.quantity.Scalar? {
          found, sum := true, sum + r.quantity.fixed;
        }
      }
      assert resources[..|resources|] == resources;
      ScalarTotalIs(resources, name, found, sum);
      return if found then Some(sum) else None;
    }

    /** `get<Value::Ranges>(name)` */
    method GetRanges(name: string) returns (total: Option<set<nat>>)
      ensures total.Some? == Total(resources, Named(name, RANGES)).Some?
      ensures total.Some? ==> Total(resources, Named(name, RANGES)).value.atoms == AmountOf(Ranges(total.value)).atoms
    {
      var found: bool, ports: set<nat> := false, {};
      ghost var a := Named(name, RANGES);
      for i := 0 to |resources|
        invariant AmountOf(Ranges(ports)).atoms == Balance(resources[..i], a).atoms
        invariant found <==> Present(resources, i, a)
      {
        var r := resources[i].resource;
        BalanceNext(resources, i, a);
        PresentNext(resources, i, a);
        if r.name == name && r.quantity.Ranges? {
          AddMeaning(Ranges(ports), r.quantity);
          found, ports := true, ports + r.quantity.ports;
        }
      }
      assert resources[..|resources|] == resources;
      return if found then Some(ports) else None;
    }
  }

  ghost function StepsFrom(kind: ChangeKind, es: seq<Entry>, rs: seq<Resource>, i: nat): Try<seq<Entry>>
    requires i <= |rs| && forall j :: 0 <= j < |rs| ==> Validate(rs[j])
  {
    Steps(kind, es, rs[i..])
  }

  lemma {:induction false} StepsStart(kind: ChangeKind, es: seq<Entry>, rs: seq<Resource>)
    requires forall j :: 0 <= j < |rs| ==> Validate(rs[j])
    ensures StepsFrom(kind, es, rs, 0) == Steps(kind, es, rs)
  {
    assert rs[0..] == rs;
  }

  lemma {:induction false} StepsNext(kind: ChangeKind, es: seq<Entry>, rs: seq<Resource>, i: nat)
    requires i < |rs| && forall j :: 0 <= j < |rs| ==> Validate(rs[j])
    ensures StepsFrom(kind, es, rs, i) ==
            match Step(kind, es, rs[i]) case Error => Error case Ok(es') => StepsFrom(kind, es', rs, i + 1)
  {
    assert rs[i..][1..] == rs[i + 1..];
  }

  ghost predicate Present(es: seq<Entry>, n: nat, a: Account)
    requires n <= |es|
  {
    exists j :: 0 <= j < n && InAccount(es[j], a)
  }

  lemma {:induction false} PresentNext(es: seq<Entry>, n: nat, a: Account)
    requires n < |es|
    ensures Present(es, n + 1, a) <==> Present(es, n, a) || InAccount(es[n], a)
  {
    if InAccount(es[n], a) { assert InAccount(es[n], a); }
  }

  ghost function ScalarTotal(es: seq<Entry>, name: string): Option<int> {
    match Total(es, Named(name, SCALAR)) case None => None case Some(t) => Some(t.num)
  }

  lemma {:induction false} ScalarTotalIs(es: seq<Entry>, name: string, found: bool, sum: int)
    requires found <==> Present(es, |es|, Named(name, SCALAR))
    requires sum == Balance(es, Named(name, SCALAR)).num
    ensures ScalarTotal(es, name) == if found then Some(sum) else None
  {
  }

  lemma {:induction false} BalanceNext(es: seq<Entry>, i: nat, a: Account)
    requires i < |es|
    ensures Balance(es[..i + 1], a) == Plus(Balance(es[..i], a), At(es[i], a))
  {
    assert es[..i + 1] == es[..i] + [es[i]];
    BalanceConcat(es[..i], [es[i]], a);
    assert [es[i]][1..] == [];
    PlusLaws(At(es[i], a), Zero, Zero);
  }

  /** Megabytes of a total, as `mem()` and `disk()` report it: the fraction is cut off. */
  function Megabytes(total: Option<int>): Option<int> {
    match total case None => None case Some(v) => Some(v / 1000)
  }

  /** What the closing CHECKs of `apply` compare. */
  ghost predicate SameTotals(x: seq<Entry>, y: seq<Entry>) {
    && ScalarTotal(x, "cpus") == ScalarTotal(y, "cpus")
    && ScalarTotal(x, "gpus") == ScalarTotal(y, "gpus")
    && Megabytes(ScalarTotal(x, "mem")) == Megabytes(ScalarTotal(y, "mem"))
    && Megabytes(ScalarTotal(x, "disk")) == Megabytes(ScalarTotal(y, "disk"))
    && SamePorts(Total(x, Named("ports", RANGES)), Total(y, Named("ports", RANGES)))
  }

  ghost predicate SamePorts(x: Option<Amount>, y: Option<Amount>) {
    x.Some? == y.Some? && (x.Some? ==> x.value.atoms == y.value.atoms)
  }

  lemma {:induction false} PortsInjective(x: set<nat>, y: set<nat>)
    ensures AmountOf(Ranges(x)).atoms == AmountOf(Ranges(y)).atoms <==> x == y
  {
    if AmountOf(Ranges(x)).atoms == AmountOf(Ranges(y)).atoms {
      forall p: nat ensures p in x <==> p in y {
        assert Port(p) in AmountOf(Ranges(x)).atoms <==> p in x;
        assert Port(p) in AmountOf(Ranges(y)).atoms <==> p in y;
      }
    }
  }

  method CheckTotals(x: Resources, y: Resources) returns (same: bool)
    ensures same <==> SameTotals(x.resources, y.resources)
  {
    var cx := x.GetScalar("cpus");
    var cy := y.GetScalar("cpus");
    var gx := x.GetScalar("gpus");
    var gy := y.GetScalar("gpus");
    var mx := x.GetScalar("mem");
    var my := y.GetScalar("mem");
    var dx := x.GetScalar("disk");
    var dy := y.GetScalar("disk");
    var px := x.GetRanges("ports");
    var py := y.GetRanges("ports");
    if px.Some? && py.Some? { PortsInjective(px.value, py.value); }
    same := cx == cy && gx == gy && Megabytes(mx) == Megabytes(my) && Megabytes(dx) == Megabytes(dy) && px == py;
  }

  /** `Resources::validate` on a list. */
  method ValidateAll(messages: seq<Resource>) returns (valid: bool)
    ensures valid <==> forall i :: 0 <= i < |messages| ==> Validate(messages[i])
  {
    for i := 0 to |messages|
      invariant forall j :: 0 <= j < i ==> Validate(messages[j])
    {
      if !Validate(messages[i]) {
        return false;
      }
    }
    return true;
  }

  /** `disk()` reports a different number of megabytes after the operation. */
  ghost predicate Breaks(es: seq<Entry>, op: Operation) {
    var b := Balance(es, DISK).num;
    b / 1000 != (b + Drift(es, op)) / 1000
  }

  /** `apply`: the operation on a copy, then the CHECKs that the known totals are what they were. */
  method ApplyOperation(self: Resources, operation: Operation) returns (outcome: Outcome)
    ensures outcome.Rejected? <==> Apply(self.resources, operation) == Error
    ensures outcome.Applied? ==>
              fresh(outcome.resources) && Ok(outcome.resources.resources) == Apply(self.resources, operation)
    ensures outcome.Aborted? <==>
              Apply(self.resources, operation).Ok? && !SameTotals(Apply(self.resources, operation).value, self.resources)
    ensures Entries.Valid(self.resources) && ProperOperation(operation) ==>
              (outcome.Aborted? <==> Apply(self.resources, operation).Ok? && Breaks(self.resources, operation))
  {
    var result := new Resources.Copy(self.resources);
    match operation {
      case UNKNOWN_OPERATION =>
        return Rejected;
      case LAUNCH =>
      case LAUNCH_GROUP =>
      case Change(kind, operands) =>
        var valid := ValidateAll(operands);
        if !valid {
          return Rejected;
        }
        var ok := result.OperateAll(kind, operands);
        if !ok {
          return Rejected;
        }
    }
    if Entries.Valid(self.resources) && ProperOperation(operation) {
      AbortsExactly(self.resources, operation, result.resources);
    }
    var same := CheckTotals(result, self);
    return if same then Applied(result) else Aborted;
  }

  lemma {:induction false} ScalarShifted(es: seq<Entry>, after: seq<Entry>, name: string, drift: int)
    requires Total(after, Named(name, SCALAR)) == Shifted(Total(es, Named(name, SCALAR)), drift)
    ensures drift == 0 ==> ScalarTotal(after, name) == ScalarTotal(es, name)
    ensures Megabytes(ScalarTotal(after, name)) == Megabytes(ScalarTotal(es, name)) <==>
            Total(es, Named(name, SCALAR)).None? ||
            Balance(es, Named(name, SCALAR)).num / 1000 == (Balance(es, Named(name, SCALAR)).num + drift) / 1000
  {
  }

  /** A closing CHECK fails if and only if the drift of the total of "disk" shows in whole megabytes. */
  lemma {:induction false} AbortsExactly(es: seq<Entry>, op: Operation, after: seq<Entry>)
    requires Entries.Valid(es) && ProperOperation(op) && Apply(es, op) == Ok(after)
    ensures SameTotals(after, es) <==> !Breaks(es, op)
  {
    OtherNames(es, op, after, "cpus");
    OtherNames(es, op, after, "gpus");
    OtherNames(es, op, after, "mem");
    ApplyMoves(es, op, after, Named("ports", RANGES));
    DiskChecked(es, op, after);
  }

  lemma {:induction false} OtherNames(es: seq<Entry>, op: Operation, after: seq<Entry>, name: string)
    requires Entries.Valid(es) && ProperOperation(op) && Apply(es, op) == Ok(after) && name != "disk"
    ensures ScalarTotal(after, name) == ScalarTotal(es, name)
  {
    ApplyMoves(es, op, after, Named(name, SCALAR));
    ScalarShifted(es, after, name, 0);
  }

  lemma {:induction false} DiskChecked(es: seq<Entry>, op: Operation, after: seq<Entry>)
    requires Entries.Valid(es) && ProperOperation(op) && Apply(es, op) == Ok(after)
    ensures Megabytes(ScalarTotal(after, "disk")) == Megabytes(ScalarTotal(es, "disk")) <==> !Breaks(es, op)
  {
    ApplyMoves(es, op, after, DISK);
    ScalarShifted(es, after, "disk", Drift(es, op));
    if Drift(es, op) != 0 { DriftIsPresent(op.kind, es, op.resources); }
  }

  /** How far one operand moves the total of "disk". */
  ghost function OneLeak(kind: ChangeKind, es: seq<Entry>, r: Resource): int
    requires Eligible(kind, r) && r.quantity.Scalar?
  {
    match kind
    case DESTROY => 0
    case CREATE => if r.shared && Holds(es, SlotOf(r)) != Zero then -r.quantity.fixed else 0
    case _ =>
      if !r.shared then 0
      else (if Holds(es, SlotOf(Given(kind, r))) == Zero then r.quantity.fixed else 0) -
           (if Holds(es, SlotOf(Taken(kind, r))) == Units(1) then r.quantity.fixed else 0)
  }

  lemma {:induction false} SingleOperation(kind: ChangeKind, es: seq<Entry>, r: Resource)
    requires Validate(r)
    ensures Apply(es, Change(kind, [r])) == Step(kind, es, r)
  {
    var rs := [r];
    assert rs[1..] == [];
    assert forall next :: Steps(kind, next, rs[1..]) == Ok(next);
    assert Steps(kind, es, rs) == Step(kind, es, r);
  }

  /**
   The same for a single operand: a second copy made by CREATE takes its size from the total, a copy that RESERVE or
   UNRESERVE moves takes or adds its size if copies stay behind on one side only, and a CHECK fails if and only if that
   shows in whole megabytes.
   */
  lemma {:induction false} OneOperandAborts(kind: ChangeKind, es: seq<Entry>, r: Resource, after: seq<Entry>)
    requires Entries.Valid(es) && Validate(r) && Proper(r) && !IsEmpty(r.quantity) && r.quantity.Scalar?
    requires Step(kind, es, r) == Ok(after)
    ensures Eligible(kind, r)
    ensures var b := Balance(es, DISK).num;
            !SameTotals(after, es) <==> b / 1000 != (b + OneLeak(kind, es, r)) / 1000
  {
    SingleOperation(kind, es, r);
    AbortsExactly(es, Change(kind, [r]), after);
    StepIsExchange(kind, es, r);
    OneDrift(kind, es, r);
  }

  lemma {:induction false} OneDrift(kind: ChangeKind, es: seq<Entry>, r: Resource)
    requires Entries.Valid(es) && Validate(r) && Proper(r) && !IsEmpty(r.quantity) && r.quantity.Scalar?
    requires Step(kind, es, r).Ok? && Eligible(kind, r)
    ensures Leaks(kind, es, [r]) == OneLeak(kind, es, r)
  {
    var leaks := LeakList(kind, es, [r]);
    assert SumTo(leaks, 1) == SumTo(leaks, 0) + leaks[0];
    assert leaks[0] == OperandLeak(kind, es, [r], 0);
    if Given(kind, r).shared { HeldCopies(es, SlotOf(Given(kind, r))); }
    if Taken(kind, r).shared { HeldCopies(es, SlotOf(Taken(kind, r))); }
    if kind == DESTROY && r.shared {
      StepIsExchange(kind, es, r);
      BothSidesStored(kind, r);
      LastCopy(es, r);
    }
  }

  /** On safe operands none of the closing CHECKs can fail. */
  lemma {:induction false} ApplyNeverAborts(es: seq<Entry>, operation: Operation)
    requires Entries.Valid(es) && SafeOperation(es, operation) && Apply(es, operation).Ok?
    ensures SameTotals(Apply(es, operation).value, es)
  {
    ApplyConserves(es, operation);
    SameTotalsEverywhere(Apply(es, operation).value, es);
  }

  lemma {:induction false} SameTotalsEverywhere(x: seq<Entry>, y: seq<Entry>)
    requires forall a: Account :: a.Named? ==> Total(x, a) == Total(y, a)
    ensures SameTotals(x, y)
  {
    var ports := Named("ports", RANGES);
    assert Total(x, ports) == Total(y, ports);
    forall name ensures ScalarTotal(x, name) == ScalarTotal(y, name) {
      assert Total(x, Named(name, SCALAR)) == Total(y, Named(name, SCALAR));
    }
  }

  /** `applyCheckpointedResources` */
  method ApplyCheckpointedResources(total: Resources, checkpointed: seq<Entry>) returns (result: Option<Resources>)
    ensures result.Some? == Checkpoint.ApplyCheckpointed(total.resources, checkpointed).Ok?
    ensures result.Some? ==>
              fresh(result.value) && Ok(result.value.resources) == Checkpoint.ApplyCheckpointed(total.resources, checkpointed)
  {
    var sum := new Resources.Copy(total.resources);
    var i := 0;
    while i < |checkpointed|
      invariant 0 <= i <= |checkpointed| && fresh(sum)
      invariant Checkpoint.ApplyCheckpointed(sum.resources, checkpointed[i..]) ==
                Checkpoint.ApplyCheckpointed(total.resources, checkpointed)
    {
      assert checkpointed[i..][1..] == checkpointed[i + 1..];
      var r := checkpointed[i].resource;
      if !Checkpoint.NeedCheckpointing(r) {
        return None;
      }
      var stripped := Checkpoint.AgentResource(r);
      var contained := sum.ContainsMessage(stripped);
      if !contained {
        return None;
      }
      sum.Subtract(Wrap(stripped));
      sum.AddMessage(r);
      i := i + 1;
    }
    return Some(sum);
  }
}
