/**
 * Cost propagation over a call graph whose components are already numbered: which inclusive costs the
 * propagation equations admit, and what those costs add up to.
 */
module CostNet {
  import opened Sums
  import opened Flow

  /** A call between two nodes, by index, weighted by call-site count or sample flow. */
  datatype Call = Call(from: nat, to: nat, count: real)

  ghost function Callee(): Call -> nat {
    (e: Call) => e.to
  }

  ghost function Caller(): Call -> nat {
    (e: Call) => e.from
  }

  ghost function Const(c: real): nat -> real {
    (v: nat) => c
  }

  datatype Net = Net(self: seq<real>, calls: seq<Call>, comp: seq<nat>, count: nat) {

    ghost predicate Valid() {
      && |comp| == |self|
      && (forall v :: 0 <= v < |self| ==> comp[v] < count)
      && (forall i :: 0 <= i < |calls| ==> calls[i].from < |self| && calls[i].to < |self|)
      && (forall i :: 0 <= i < |calls| ==> CompOf(calls[i].to) <= CompOf(calls[i].from))
    }

    /** Costs and call weights as the decoders deliver them. */
    ghost predicate NonNegative() {
      && (forall v :: 0 <= v < |self| ==> self[v] >= 0.0)
      && (forall i :: 0 <= i < |calls| ==> calls[i].count >= 0.0)
    }

    ghost function CompOf(v: nat): nat {
      if v < |comp| then comp[v] else 0
    }

    ghost function Comps(): nat -> nat {
      (v: nat) => CompOf(v)
    }

    ghost function Selfs(): nat -> real {
      (v: nat) => if v < |self| then self[v] else 0.0
    }

    ghost function TotalSelf(): real {
      Sum(Range(|self|), Selfs())
    }

    ghost function CallerComp(): Call -> nat {
      (e: Call) => CompOf(e.from)
    }

    ghost function CalleeComp(): Call -> nat {
      (e: Call) => CompOf(e.to)
    }

    ghost predicate Cross(e: Call) {
      CompOf(e.from) != CompOf(e.to)
    }

    ghost function CrossCount(): Call -> real {
      (e: Call) => if Cross(e) then e.count else 0.0
    }

    /** The call weight that arrives at a node from outside its component. */
    ghost function Inbound(v: nat): real {
      At(calls, Callee(), CrossCount(), v)
    }

    /** The part of the callee's inclusive cost that a call passes to its caller. */
    ghost function Share(): Call -> real {
      (e: Call) => if Cross(e) && Inbound(e.to) > 0.0 then e.count / Inbound(e.to) else 0.0
    }

    ghost function ComponentSelf(): nat -> real {
      (c: nat) => At(Range(|self|), Comps(), Selfs(), c)
    }

    ghost function Flows(): Network<Call, nat> {
      Network(Range(count), calls, CallerComp(), CalleeComp(), Share())
    }

    /**
     * `x` assigns inclusive costs: each component's own self cost plus, over its calls into other
     * components, the callee component's inclusive cost times count over the callee's inbound weight.
     */
    ghost predicate Inclusive(x: nat -> real) {
      Flows().Solves(ComponentSelf(), x)
    }

    /** Whether a node is called from outside its component with positive weight. */
    ghost function IsEntry(): nat -> real {
      (v: nat) => if Inbound(v) > 0.0 then 1.0 else 0.0
    }

    /** The number of members of a component that are entries. */
    ghost function Entries(): nat -> real {
      (c: nat) => At(Range(|self|), Comps(), IsEntry(), c)
    }

    // -------------------------------------------------------------- the equations have one solution

    lemma FlowsValid()
      requires Valid()
      ensures Flows().Valid()
    {
    }

    lemma {:induction false} InclusiveUnique(x: nat -> real, y: nat -> real, c: nat)
      requires Valid() && Inclusive(x) && Inclusive(y) && c < count
      ensures x(c) == y(c)
    {
      forall d: nat | d < c
        ensures x(d) == y(d)
      {
        InclusiveUnique(x, y, d);
      }
      AtCong(calls, CallerComp(), Flows().Drawn(x), Flows().Drawn(y), c);
      assert Range(count)[c] == c;
    }

    lemma {:induction false} InboundNonNegative(v: nat)
      requires NonNegative()
      ensures Inbound(v) >= 0.0
      ensures forall i :: 0 <= i < |calls| ==> Share()(calls[i]) >= 0.0
    {
      SumNonneg(calls, Only(Callee(), CrossCount(), v));
    }

    lemma {:induction false} InclusiveNonNegative(x: nat -> real, c: nat)
      requires Valid() && NonNegative() && Inclusive(x) && c < count
      ensures x(c) >= 0.0
    {
      forall d: nat | d < c
        ensures x(d) >= 0.0
      {
        InclusiveNonNegative(x, d);
      }
      InboundNonNegative(0);
      SumNonneg(Range(|self|), Only(Comps(), Selfs(), c));
      SumNonneg(calls, Only(CallerComp(), Flows().Drawn(x), c)) by {
        forall i | 0 <= i < |calls| && CompOf(calls[i].from) == c
          ensures Flows().Drawn(x)(calls[i]) >= 0.0
        {
          if Cross(calls[i]) {
            assert x(CompOf(calls[i].to)) >= 0.0;
          }
        }
      }
      assert Range(count)[c] == c;
    }

    // -------------------------------------------------------------- conservation

    /** The shares of a node's inclusive cost that its callers receive add up to one, if it is an entry. */
    lemma SharesOfNode(v: nat)
      ensures At(calls, Callee(), Share(), v) == IsEntry()(v)
    {
      var inbound := Inbound(v);
      if inbound > 0.0 {
        AtScale(calls, Callee(), 1.0 / inbound, CrossCount(), Share(), v);
      } else {
        SumZero(calls, Only(Callee(), Share(), v));
      }
    }

    lemma SharesOfComponent(c: nat)
      requires Valid()
      ensures At(calls, CalleeComp(), Share(), c) == Entries()(c)
    {
      var into := Only(CalleeComp(), Share(), c);
      forall v: nat | v < |self|
        ensures Only(Comps(), IsEntry(), c)(v) == At(calls, Callee(), into, v)
      {
        if CompOf(v) == c {
          SharesOfNode(v);
          AtCong(calls, Callee(), into, Share(), v);
        } else {
          SumZero(calls, Only(Callee(), into, v));
        }
      }
      SumByKey(Range(|self|), calls, Callee(), into, Only(Comps(), IsEntry(), c));
    }

    lemma ComponentSelfTotal()
      requires Valid()
      ensures Sum(Range(count), ComponentSelf()) == TotalSelf()
    {
      SumByKey(Range(count), Range(|self|), Comps(), Selfs(), ComponentSelf());
    }

    /** What a component keeps of its inclusive cost once every entry has handed out a full copy. */
    ghost function Kept(x: nat -> real): nat -> real {
      (c: nat) => (1.0 - Entries()(c)) * x(c)
    }

    lemma EntriesPull(x: nat -> real, c: nat)
      requires Valid() && c < count
      ensures Mul(1.0, x(c)) == Mul(Flows().Pull(Const(1.0))(c), x(c)) + Kept(x)(c)
    {
      SharesOfComponent(c);
      AtCong(calls, CalleeComp(), Flows().Passed(Const(1.0)), Share(), c);
      assert Flows().Pull(Const(1.0))(c) == Entries()(c);
      hide Entries, Network<Call, nat>.Pull, Flows;
    }

    /**
     * Exact conservation on every graph, cyclic or not: each component hands out one full copy of its
     * inclusive cost per entry, and what is left over all components is the total self cost.
     */
    lemma Conservation(x: nat -> real)
      requires Valid() && Inclusive(x)
      ensures Sum(Range(count), Kept(x)) == TotalSelf()
    {
      var one := Const(1.0);
      FlowsValid();
      ComponentSelfTotal();
      SumCong(Range(count), Times(one, ComponentSelf()), ComponentSelf());
      forall c: nat | c < count
        ensures Mul(one(c), x(c)) == Mul(Flows().Pull(one)(c), x(c)) + Kept(x)(c)
      {
        EntriesPull(x, c);
      }
      hide Kept, Mul, ComponentSelf;
      Flows().PotentialLaw(ComponentSelf(), x, one, Kept(x));
    }

    // -------------------------------------------------------------- when the roots account for everything

    /** Inclusive cost of the components that nothing outside calls with positive weight. */
    ghost function Roots(x: nat -> real): nat -> real {
      (c: nat) => if Entries()(c) == 0.0 then x(c) else 0.0
    }

    ghost predicate HasOwnCost(c: nat) {
      exists v :: 0 <= v < |self| && CompOf(v) == c && self[v] > 0.0
    }

    /** A positive self cost lies in the component or is called from it through positive weights. */
    ghost predicate Carries(c: nat)
      decreases c
    {
      || HasOwnCost(c)
      || (exists i :: 0 <= i < |calls| && CompOf(calls[i].from) == c && CompOf(calls[i].to) < c
            && calls[i].count > 0.0 && Carries(CompOf(calls[i].to)))
    }

    lemma {:induction false} CostlessComponent(x: nat -> real, c: nat)
      requires Valid() && NonNegative() && Inclusive(x) && c < count && !Carries(c)
      ensures x(c) == 0.0
    {
      SumZero(Range(|self|), Only(Comps(), Selfs(), c));
      forall i | 0 <= i < |calls| && CompOf(calls[i].from) == c
        ensures Flows().Drawn(x)(calls[i]) == 0.0
      {
        var d := CompOf(calls[i].to);
        if d < c && calls[i].count > 0.0 {
          assert !Carries(d);
          CostlessComponent(x, d);
        }
      }
      SumZero(calls, Only(CallerComp(), Flows().Drawn(x), c));
      assert Range(count)[c] == c;
    }

    /** An inclusive cost is at least each self cost in the component and each amount drawn. */
    lemma InclusiveTerms(x: nat -> real, c: nat)
      requires Valid() && NonNegative() && Inclusive(x) && c < count
      ensures forall v :: 0 <= v < |self| && CompOf(v) == c ==> self[v] <= x(c)
      ensures forall i :: 0 <= i < |calls| && CompOf(calls[i].from) == c ==> Flows().Drawn(x)(calls[i]) <= x(c)
    {
      var own, drawn := Only(Comps(), Selfs(), c), Only(CallerComp(), Flows().Drawn(x), c);
      forall i | 0 <= i < |calls|
        ensures drawn(calls[i]) >= 0.0
      {
        InboundNonNegative(0);
        InclusiveNonNegative(x, CompOf(calls[i].to));
      }
      assert x(c) == Sum(Range(|self|), own) + Sum(calls, drawn) by { assert Range(count)[c] == c; }
      hide Inclusive, Share, Inbound;
      SumNonneg(calls, drawn);
      SumNonneg(Range(|self|), own);
      forall v | 0 <= v < |self| && CompOf(v) == c
        ensures self[v] <= x(c)
      {
        SumTerm(Range(|self|), v, own);
      }
      forall i | 0 <= i < |calls| && CompOf(calls[i].from) == c
        ensures Flows().Drawn(x)(calls[i]) <= x(c)
      {
        SumTerm(calls, i, drawn);
      }
    }

    lemma PositiveShare(i: nat)
      requires NonNegative() && i < |calls| && Cross(calls[i]) && calls[i].count > 0.0
      ensures Share()(calls[i]) > 0.0
    {
      SumTerm(calls, i, Only(Callee(), CrossCount(), calls[i].to));
    }

    lemma CarryingCall(c: nat) returns (i: nat)
      requires Carries(c) && !HasOwnCost(c)
      ensures i < |calls| && CompOf(calls[i].from) == c && CompOf(calls[i].to) < c && calls[i].count > 0.0
      ensures Carries(CompOf(calls[i].to))
    {
      i :| 0 <= i < |calls| && CompOf(calls[i].from) == c && CompOf(calls[i].to) < c
           && calls[i].count > 0.0 && Carries(CompOf(calls[i].to));
    }

    lemma {:induction false} CarryingComponent(x: nat -> real, c: nat)
      requires Valid() && NonNegative() && Inclusive(x) && c < count && Carries(c)
      ensures x(c) > 0.0
    {
      hide Inclusive, Inbound, Share, Carries;
      InclusiveTerms(x, c);
      if !HasOwnCost(c) {
        var i := CarryingCall(c);
        hide HasOwnCost;
        CarryingComponent(x, CompOf(calls[i].to));
        PositiveShare(i);
        Scaled(Share()(calls[i]), x(CompOf(calls[i].to)));
      }
    }

    /** With single-entry components the uncalled ones account for exactly the total self cost. */
    lemma SingleEntryConserves(x: nat -> real)
      requires Valid() && SingleEntry() && Inclusive(x)
      ensures Sum(Range(count), Roots(x)) == TotalSelf()
    {
      Conservation(x);
      hide *;
      forall c: nat | c < count
        ensures Roots(x)(c) == Kept(x)(c)
      {
        OneEntryKept(x, c);
      }
      SumCong(Range(count), Roots(x), Kept(x));
    }

    /** A component with at most one entry keeps what a root reports. */
    lemma OneEntryKept(x: nat -> real, c: nat)
      requires Valid() && SingleEntry()
      ensures Roots(x)(c) == Kept(x)(c)
    {
      var k := EntriesCounted(c);
      SingleEntryCount(c);
      hide Entries;
      assert Entries()(c) == 0.0 || Entries()(c) == 1.0;
    }

    /** What a component with several entries is charged beyond its inclusive cost. */
    ghost function Excess(x: nat -> real): nat -> real {
      (c: nat) => if Entries()(c) == 0.0 then 0.0 else (Entries()(c) - 1.0) * x(c)
    }

    lemma EntriesCounted(c: nat) returns (k: nat)
      ensures Entries()(c) == k as real
    {
      k := SumBits(Range(|self|), Only(Comps(), IsEntry(), c));
    }

    /**
     * The inclusive costs of the uncalled components add up to the total self cost exactly when no
     * component with two or more entries carries cost.
     */
    lemma ConservedIff(x: nat -> real)
      requires Valid() && NonNegative() && Inclusive(x)
      ensures Sum(Range(count), Roots(x)) >= TotalSelf()
      ensures Sum(Range(count), Roots(x)) == TotalSelf()
              <==> forall c :: 0 <= c < count && Carries(c) ==> Entries()(c) < 2.0
    {
      Conservation(x);
      SumAdd(Range(count), Kept(x), Excess(x), Roots(x));
      forall c: nat | c < count
        ensures Excess(x)(c) >= 0.0
        ensures Excess(x)(c) == 0.0 <==> !Carries(c) || Entries()(c) < 2.0
      {
        ExcessOf(x, c);
      }
      hide Excess, Carries;
      SumNonneg(Range(count), Excess(x));
      if c :| 0 <= c < count && Carries(c) && Entries()(c) >= 2.0 {
        SumTerm(Range(count), c, Excess(x));
        assert Range(count)[c] == c;
      } else {
        SumZero(Range(count), Excess(x));
      }
    }

    lemma ExcessOf(x: nat -> real, c: nat)
      requires Valid() && NonNegative() && Inclusive(x) && c < count
      ensures Excess(x)(c) >= 0.0
      ensures Excess(x)(c) == 0.0 <==> !Carries(c) || Entries()(c) < 2.0
    {
      var k := EntriesCounted(c);
      if Carries(c) {
        CarryingComponent(x, c);
      } else {
        CostlessComponent(x, c);
      }
      if k >= 1 {
        Scaled(k as real - 1.0, x(c));
      }
      hide Carries, Inclusive, Entries;
    }

    // -------------------------------------------------------------- who is responsible for what

    /** What a call passes on to component `d` of the responsibility of `c`. */
    ghost function RespPassed(c: nat, d: nat): Call -> real
      decreases if d <= c then c - d else 0, 0
    {
      (e: Call) => if d < CompOf(e.from) <= c then Resp(c, CompOf(e.from)) * Share()(e) else 0.0
    }

    /** The fraction of the inclusive cost of `d` that the propagation attributes to `c`. It reads no self cost. */
    ghost function Resp(c: nat, d: nat): real
      decreases if d <= c then c - d else 0, 1
    {
      if d > c then 0.0 else if d == c then 1.0 else At(calls, CalleeComp(), RespPassed(c, d), d)
    }

    ghost function Resps(c: nat): nat -> real {
      (d: nat) => Resp(c, d)
    }

    /** Responsibility arrives along some call. */
    lemma RespStep(c: nat, d: nat) returns (i: nat)
      requires d < c && Resp(c, d) != 0.0
      ensures i < |calls| && CompOf(calls[i].to) == d < CompOf(calls[i].from) <= c
      ensures Resp(c, CompOf(calls[i].from)) != 0.0
    {
      var passed := Only(CalleeComp(), RespPassed(c, d), d);
      assert Resp(c, d) == Sum(calls, passed);
      if forall k :: 0 <= k < |calls| ==> passed(calls[k]) == 0.0 {
        SumZero(calls, passed);
      }
      i :| 0 <= i < |calls| && passed(calls[i]) != 0.0;
    }

    lemma RespPull(c: nat, d: nat)
      requires Valid()
      ensures Flows().Pull(Resps(c))(d) == if d == c then 0.0 else Resp(c, d)
    {
      if d < c {
        AtCong(calls, CalleeComp(), Flows().Passed(Resps(c)), RespPassed(c, d), d);
      } else {
        SumZero(calls, Only(CalleeComp(), Flows().Passed(Resps(c)), d));
      }
    }

    ghost function Responsible(c: nat): nat -> real {
      Times<nat>(Resps(c), ComponentSelf())
    }

    /**
     * The bottom-up propagation and the top-down responsibilities agree: an inclusive cost is the sum
     * of all self costs, each weighted by the responsibility for it.
     */
    lemma Duality(x: nat -> real, c: nat)
      requires Valid() && Inclusive(x) && c < count
      ensures x(c) == Sum(Range(count), Responsible(c))
    {
      var ofC := (d: nat) => if d == c then x(d) else 0.0;
      FlowsValid();
      forall d: nat | d < count
        ensures Mul(Resps(c)(d), x(d)) == Mul(Flows().Pull(Resps(c))(d), x(d)) + ofC(d)
      {
        RespPull(c, d);
      }
      hide Mul, Resps, ComponentSelf;
      Flows().PotentialLaw(ComponentSelf(), x, Resps(c), ofC);
      SumPick(Range(count), c, ofC);
    }

    lemma {:induction false} RespNonNegative(c: nat, d: nat)
      requires Valid() && NonNegative()
      ensures Resp(c, d) >= 0.0
      decreases if d <= c then c - d else 0
    {
      if d < c {
        InboundNonNegative(0);
        forall i | 0 <= i < |calls| && d < CompOf(calls[i].from) <= c
          ensures Resp(c, CompOf(calls[i].from)) >= 0.0
        {
          RespNonNegative(c, CompOf(calls[i].from));
        }
        SumNonneg(calls, Only(CalleeComp(), RespPassed(c, d), d));
      }
    }

    /** No component is called from outside through more than one member. */
    ghost predicate SingleEntry() {
      forall u, v ::
        0 <= u < |self| && 0 <= v < |self| && CompOf(u) == CompOf(v) && Inbound(u) > 0.0 && Inbound(v) > 0.0
        ==> u == v
    }

    lemma SingleEntryCount(c: nat)
      requires Valid() && SingleEntry()
      ensures Entries()(c) <= 1.0
    {
      if v: nat :| v < |self| && CompOf(v) == c && Inbound(v) > 0.0 {
        SumPick(Range(|self|), v, Only(Comps(), IsEntry(), c));
      } else {
        SumZero(Range(|self|), Only(Comps(), IsEntry(), c));
      }
    }

    lemma {:induction false} SingleEntryResp(c: nat, d: nat)
      requires Valid() && NonNegative() && SingleEntry()
      ensures Resp(c, d) <= 1.0
      decreases if d <= c then c - d else 0
    {
      if d < c {
        InboundNonNegative(0);
        forall i | 0 <= i < |calls| && CompOf(calls[i].to) == d
          ensures RespPassed(c, d)(calls[i]) <= Share()(calls[i])
        {
          if d < CompOf(calls[i].from) <= c {
            SingleEntryResp(c, CompOf(calls[i].from));
            AtMostWhole(Resp(c, CompOf(calls[i].from)), Share()(calls[i]));
          }
        }
        SumLe(calls, Only(CalleeComp(), RespPassed(c, d), d), Only(CalleeComp(), Share(), d));
        SharesOfComponent(d);
        SingleEntryCount(d);
      }
    }

    // -------------------------------------------------------------- more cost, no smaller shares

    lemma SelfsOrdered(other: Net, d: nat)
      requires other == this.(self := other.self) && |other.self| == |self|
      requires forall v :: 0 <= v < |self| ==> self[v] <= other.self[v]
      ensures ComponentSelf()(d) <= other.ComponentSelf()(d)
    {
      SumLe(Range(|self|), Only(Comps(), Selfs(), d), Only(other.Comps(), other.Selfs(), d));
    }

    /**
     * Measuring more self cost anywhere, with the calls unchanged, lowers no inclusive cost: no
     * responsibility is negative, and none depends on the measurement.
     */
    lemma InclusiveMonotone(other: Net, x: nat -> real, y: nat -> real, c: nat)
      requires Valid() && NonNegative() && other == this.(self := other.self) && |other.self| == |self|
      requires forall v :: 0 <= v < |self| ==> self[v] <= other.self[v]
      requires Inclusive(x) && other.Inclusive(y) && c < count
      ensures x(c) <= y(c)
    {
      hide *;
      ValidForAnySelf(other);
      Duality(x, c);
      other.Duality(y, c);
      forall d: nat {
        ResponsibleOrdered(other, c, d);
      }
      SumLe(Range(count), Responsible(c), other.Responsible(c));
    }

    lemma ValidForAnySelf(other: Net)
      requires Valid() && other == this.(self := other.self) && |other.self| == |self|
      ensures other.Valid()
    {
    }

    lemma ResponsibleOrdered(other: Net, c: nat, d: nat)
      requires Valid() && NonNegative() && other == this.(self := other.self) && |other.self| == |self|
      requires forall v :: 0 <= v < |self| ==> self[v] <= other.self[v]
      ensures Responsible(c)(d) <= other.Responsible(c)(d)
    {
      RespNonNegative(c, d);
      RespIgnoresSelf(other, c, d);
      SelfsOrdered(other, d);
      hide ComponentSelf;
      Heavier(Resp(c, d), ComponentSelf()(d), other.ComponentSelf()(d));
    }

    // -------------------------------------------------------------- shares of the total

    /** No component's cost is charged to `c` more than once in full. */
    ghost predicate AtMostOne(c: nat) {
      forall d: nat :: d < count ==> Resps(c)(d) <= 1.0
    }

    /** When every responsibility of `c` is at most one, its share of the total is a true fraction. */
    lemma ShareIsFraction(x: nat -> real, c: nat)
      requires Valid() && NonNegative() && Inclusive(x) && c < count
      requires AtMostOne(c)
      ensures 0.0 <= x(c) <= TotalSelf()
    {
      InclusiveNonNegative(x, c);
      Duality(x, c);
      forall d: nat | d < count
        ensures Responsible(c)(d) <= ComponentSelf()(d)
      {
        ResponsibleAtMost(c, d);
      }
      hide Responsible, ComponentSelf, Inclusive, NonNegative;
      SumLe(Range(count), Responsible(c), ComponentSelf());
      ComponentSelfTotal();
    }

    lemma ResponsibleAtMost(c: nat, d: nat)
      requires Valid() && NonNegative() && Resps(c)(d) <= 1.0
      ensures Responsible(c)(d) <= ComponentSelf()(d)
    {
      var a, b := Resps(c)(d), ComponentSelf()(d);
      assert b >= 0.0 by {
        SumNonneg(Range(|self|), Only(Comps(), Selfs(), d));
      }
      assert Responsible(c)(d) == Mul(a, b);
      hide ComponentSelf, Resps, Responsible;
      AtMostWhole(a, b);
    }

    /** Self costs that are zero everywhere but at `v`. */
    ghost function AllAt(v: nat): Net {
      this.(self := seq(|self|, i => if i == v then 1.0 else 0.0))
    }

    lemma ShareIgnoresSelf(other: Net, e: Call)
      requires other == this.(self := other.self)
      ensures Share()(e) == other.Share()(e)
    {
      AtCong(calls, Callee(), CrossCount(), other.CrossCount(), e.to);
    }

    /** Responsibilities depend on the calls only. */
    lemma {:induction false} RespIgnoresSelf(other: Net, c: nat, d: nat)
      requires Valid() && other.Valid() && other == this.(self := other.self)
      ensures Resp(c, d) == other.Resp(c, d)
      decreases if d <= c then c - d else 0
    {
      if d < c {
        forall i | 0 <= i < |calls| && CompOf(calls[i].to) == d
          ensures RespPassed(c, d)(calls[i]) == other.RespPassed(c, d)(calls[i])
        {
          var e := calls[i];
          ShareIgnoresSelf(other, e);
          if d < CompOf(e.from) <= c {
            RespIgnoresSelf(other, c, CompOf(e.from));
          }
        }
        SumCong(calls, Only(CalleeComp(), RespPassed(c, d), d), Only(other.CalleeComp(), other.RespPassed(c, d), d));
      }
    }

    lemma AllAtTotals(v: nat)
      requires Valid() && v < |self|
      ensures AllAt(v).TotalSelf() == 1.0
      ensures forall k :: 0 <= k < count ==> AllAt(v).ComponentSelf()(k) == if k == CompOf(v) then 1.0 else 0.0
    {
      var net := AllAt(v);
      SumPick(Range(|self|), v, net.Selfs());
      forall k: nat | k < count
        ensures net.ComponentSelf()(k) == if k == CompOf(v) then 1.0 else 0.0
      {
        SumPick(Range(|self|), v, Only(net.Comps(), net.Selfs(), k));
      }
    }

    /** With all self cost at one node, the share of `c` is its responsibility for that node's component. */
    lemma ShareOfAllAt(v: nat, x: nat -> real, c: nat)
      requires Valid() && AllAt(v).Inclusive(x) && c < count && v < |self|
      ensures AllAt(v).TotalSelf() == 1.0
      ensures x(c) == Resp(c, CompOf(v))
    {
      var net, d := AllAt(v), CompOf(v);
      AllAtTotals(v);
      net.Duality(x, c);
      hide Inclusive, ComponentSelf, TotalSelf;
      SumPick(Range(count), d, net.Responsible(c));
      RespIgnoresSelf(net, c, d);
    }

    /** The inclusive costs, computed by recursion on the component number. */
    ghost function Propagated(c: nat): real
      decreases c, 1
    {
      ComponentSelf()(c) + At(calls, CallerComp(), PropagatedDraw(c), c)
    }

    ghost function PropagatedDraw(c: nat): Call -> real
      decreases c, 0
    {
      (e: Call) => if CompOf(e.to) < c then Share()(e) * Propagated(CompOf(e.to)) else 0.0
    }

    ghost function Propagateds(): nat -> real {
      (c: nat) => Propagated(c)
    }

    lemma InclusiveExists()
      requires Valid()
      ensures Inclusive(Propagateds())
    {
      forall c: nat | c < count
        ensures Propagated(c) == ComponentSelf()(c) + At(calls, CallerComp(), Flows().Drawn(Propagateds()), c)
      {
        AtCong(calls, CallerComp(), PropagatedDraw(c), Flows().Drawn(Propagateds()), c);
      }
    }

    /** Whatever the measured self costs, the share of `c` is a true fraction of the total. */
    ghost predicate AlwaysFraction(c: nat) {
      forall s: seq<real>, x: nat -> real ::
        |s| == |self| && this.(self := s).NonNegative() && this.(self := s).Inclusive(x)
        ==> 0.0 <= x(c) <= this.(self := s).TotalSelf()
    }

    lemma FractionNeedsResp(c: nat, d: nat)
      requires Valid() && NonNegative() && c < count && d in comp && AlwaysFraction(c)
      ensures Resp(c, d) <= 1.0
    {
      var v: nat :| v < |comp| && comp[v] == d;
      var net := AllAt(v);
      assert net == this.(self := net.self);
      assert net.NonNegative();
      net.InclusiveExists();
      ShareOfAllAt(v, net.Propagateds(), c);
    }

    /** Shares are true fractions under every measurement exactly when no responsibility exceeds one. */
    lemma AlwaysFractionIff(c: nat)
      requires Valid() && NonNegative() && c < count
      requires forall d: nat :: d < count ==> d in comp
      ensures AlwaysFraction(c) <==> AtMostOne(c)
    {
      if AlwaysFraction(c) {
        forall d: nat | d < count
          ensures Resps(c)(d) <= 1.0
        {
          FractionNeedsResp(c, d);
        }
      }
      if AtMostOne(c) {
        forall s: seq<real>, x: nat -> real | |s| == |self| && this.(self := s).NonNegative()
          && this.(self := s).Inclusive(x)
          ensures 0.0 <= x(c) <= this.(self := s).TotalSelf()
        {
          var net := this.(self := s);
          forall d: nat | d < count
            ensures net.Resps(c)(d) <= 1.0
          {
            RespIgnoresSelf(net, c, d);
            assert Resps(c)(d) <= 1.0;
          }
          net.ShareIsFraction(x, c);
        }
      }
    }

    /** In particular, single-entry components (every acyclic graph) make all shares true fractions. */
    lemma SingleEntryFraction(x: nat -> real, c: nat)
      requires Valid() && NonNegative() && SingleEntry() && Inclusive(x) && c < count
      ensures 0.0 <= x(c) <= TotalSelf()
    {
      forall d: nat | d < count
        ensures Resps(c)(d) <= 1.0
      {
        SingleEntryResp(c, d);
      }
      ShareIsFraction(x, c);
    }

    // -------------------------------------------------------------- the breakdown around one node

    /** The cost that each node draws from callees outside its component. */
    ghost function CalleeAmounts(x: nat -> real): nat -> real {
      (v: nat) => At(calls, Caller(), Flows().Drawn(x), v)
    }

    lemma CalleeAmountsOfComponent(x: nat -> real, c: nat)
      requires Valid()
      ensures At(Range(|self|), Comps(), CalleeAmounts(x), c) == At(calls, CallerComp(), Flows().Drawn(x), c)
    {
      var from := Only(CallerComp(), Flows().Drawn(x), c);
      forall v: nat | v < |self|
        ensures Only(Comps(), CalleeAmounts(x), c)(v) == At(calls, Caller(), from, v)
      {
        if CompOf(v) == c {
          AtCong(calls, Caller(), from, Flows().Drawn(x), v);
        } else {
          SumZero(calls, Only(Caller(), from, v));
        }
      }
      SumByKey(Range(|self|), calls, Caller(), from, Only(Comps(), CalleeAmounts(x), c));
    }

    /** Over a component, the members' self costs and callee amounts make up its inclusive cost. */
    lemma CalleesExplainInclusive(x: nat -> real, c: nat)
      requires Valid() && Inclusive(x) && c < count
      ensures x(c) == ComponentSelf()(c) + At(Range(|self|), Comps(), CalleeAmounts(x), c)
    {
      CalleeAmountsOfComponent(x, c);
      assert Range(count)[c] == c;
    }

    /** The amounts attributed to the callers of an entry add up to its whole inclusive cost. */
    lemma CallersExplainInclusive(x: nat -> real, v: nat)
      ensures At(calls, Callee(), Flows().Drawn(x), v) == x(CompOf(v)) * IsEntry()(v)
    {
      SharesOfNode(v);
      AtScale(calls, Callee(), x(CompOf(v)), Share(), Flows().Drawn(x), v);
    }

    /** What a node draws from its callees is at most its inclusive cost. */
    lemma CalleesWithinInclusive(x: nat -> real, v: nat)
      requires Valid() && NonNegative() && Inclusive(x) && v < |self|
      ensures 0.0 <= CalleeAmounts(x)(v) <= x(comp[v])
    {
      var c := comp[v];
      forall i | 0 <= i < |calls|
        ensures Flows().Drawn(x)(calls[i]) >= 0.0
      {
        InboundNonNegative(0);
        InclusiveNonNegative(x, CompOf(calls[i].to));
        Scaled(Share()(calls[i]), x(CompOf(calls[i].to)));
      }
      CalleesExplainInclusive(x, c);
      hide Inclusive, Flows;
      forall u: nat
        ensures CalleeAmounts(x)(u) >= 0.0
      {
        SumNonneg(calls, Only(Caller(), Flows().Drawn(x), u));
      }
      SumNonneg(Range(|self|), Only(Comps(), Selfs(), c));
      SumTerm(Range(|self|), v, Only(Comps(), CalleeAmounts(x), c));
    }
  }

  lemma Heavier(r: real, a: real, b: real)
    requires r >= 0.0 && a <= b
    ensures Mul(r, a) <= Mul(r, b)
  {
  }

  lemma AtMostWhole(a: real, b: real)
    requires a <= 1.0 && b >= 0.0
    ensures a * b <= b
  {
  }

  lemma Scaled(a: real, b: real)
    requires a >= 0.0 && b >= 0.0
    ensures a * b >= 0.0 && (a * b == 0.0 <==> a == 0.0 || b == 0.0)
  {
  }
}
