/**
 * Weighted flow equations over a finite set of nodes. The inclusive cost of a call-graph component and
 * the subtree total of a profile node are both solutions of such equations.
 */
module Flow {
  import opened Sums

  datatype Network<!E, !T> = Network(nodes: seq<T>, arcs: seq<E>, source: E -> T, target: E -> T, weight: E -> real) {

    ghost predicate Valid() {
      && Distinct(nodes)
      && forall i :: 0 <= i < |arcs| ==> source(arcs[i]) in nodes && target(arcs[i]) in nodes
    }

    /** What an arc draws from its target. */
    ghost function Drawn(x: T -> real): E -> real {
      (e: E) => weight(e) * x(target(e))
    }

    /** What an arc passes on of its source's potential. */
    ghost function Passed(phi: T -> real): E -> real {
      (e: E) => phi(source(e)) * weight(e)
    }

    /** `x(v)` is the node's own supply plus what it draws from the targets of its arcs. */
    ghost predicate Solves(supply: T -> real, x: T -> real) {
      forall i :: 0 <= i < |nodes| ==> x(nodes[i]) == supply(nodes[i]) + At(arcs, source, Drawn(x), nodes[i])
    }

    /** The potential that arrives at each node along its incoming arcs. */
    ghost function Pull(phi: T -> real): T -> real {
      v => At(arcs, target, Passed(phi), v)
    }

    /** Potential times weight times value, per arc. */
    ghost function Both(phi: T -> real, x: T -> real): E -> real {
      (e: E) => phi(source(e)) * (weight(e) * x(target(e)))
    }

    lemma BothBySource(phi: T -> real, x: T -> real, v: T)
      ensures At(arcs, source, Both(phi, x), v) == phi(v) * At(arcs, source, Drawn(x), v)
    {
      AtScale(arcs, source, phi(v), Drawn(x), Both(phi, x), v);
    }

    lemma BothByTarget(phi: T -> real, x: T -> real, v: T)
      ensures At(arcs, target, Both(phi, x), v) == Pull(phi)(v) * x(v)
    {
      AtScale(arcs, target, x(v), Passed(phi), Both(phi, x), v);
    }

    /**
     * For every potential `phi`, the weighted sum of a solution is the weighted sum of the supplies
     * plus what the solution draws a second time through the arcs.
     */
    lemma PotentialIdentity(supply: T -> real, x: T -> real, phi: T -> real)
      requires Valid() && Solves(supply, x)
      ensures Sum(nodes, Times(phi, x)) == Sum(nodes, Times(phi, supply)) + Sum(nodes, Times(Pull(phi), x))
    {
      var byFrom := v => At(arcs, source, Both(phi, x), v);
      forall i | 0 <= i < |nodes|
        ensures Times(phi, x)(nodes[i]) == Times(phi, supply)(nodes[i]) + byFrom(nodes[i])
        ensures Times(Pull(phi), x)(nodes[i]) == At(arcs, target, Both(phi, x), nodes[i])
      {
        var v := nodes[i];
        BothBySource(phi, x, v);
        BothByTarget(phi, x, v);
        Distribute(phi(v), supply(v), At(arcs, source, Drawn(x), v));
      }
      hide Times, Both, Pull, Solves;
      SumAdd(nodes, Times(phi, supply), byFrom, Times(phi, x));
      SumByKey(nodes, arcs, source, Both(phi, x), byFrom);
      SumByKey(nodes, arcs, target, Both(phi, x), Times(Pull(phi), x));
    }

    /** The same law solved for the part of `phi * x` that is not drawn again. */
    lemma PotentialLaw(supply: T -> real, x: T -> real, phi: T -> real, rest: T -> real)
      requires Valid() && Solves(supply, x)
      requires forall i :: 0 <= i < |nodes| ==>
        Mul(phi(nodes[i]), x(nodes[i])) == Mul(Pull(phi)(nodes[i]), x(nodes[i])) + rest(nodes[i])
      ensures Sum(nodes, rest) == Sum(nodes, Times(phi, supply))
    {
      PotentialIdentity(supply, x, phi);
      hide Mul, Pull, Solves;
      SumAdd(nodes, Times(Pull(phi), x), rest, Times(phi, x));
    }
  }

  lemma Distribute(a: real, b: real, c: real)
    ensures a * (b + c) == a * b + a * c
  {
  }
}
