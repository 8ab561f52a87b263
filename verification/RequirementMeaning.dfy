/** What the judge's masks mean. A requirement is read as a formula over its
    leaves. The judge never builds the disjunctive normal form, yet its list is
    a canonical form of that: the masks are those of the disjuncts. */
module RequirementMeaning {
  import opened Basics
  import opened RequirementBlob
  import opened RequirementGrammar
  import opened RequirementStrength

  // Meaning.

  predicate IsLeaf(c: Clause) {
    !c.And? && !c.Or? && !c.Not? && !c.True?
  }

  function Leaves(c: Clause): set<Clause> {
    match c
    case And(left, right) => Leaves(left) + Leaves(right)
    case Or(left, right) => Leaves(left) + Leaves(right)
    case Not(negated) => Leaves(negated)
    case True => {}
    case _ => {c}
  }

  predicate Satisfied(c: Clause, truths: set<Clause>) {
    match c
    case And(left, right) => Satisfied(left, truths) && Satisfied(right, truths)
    case Or(left, right) => Satisfied(left, truths) || Satisfied(right, truths)
    case Not(negated) => !Satisfied(negated, truths)
    case True => true
    case _ => c in truths
  }

  // The disjunctive normal form the masks collapse.

  function Meets(d: seq<Clause>, right: seq<seq<Clause>>): (r: seq<seq<Clause>>)
    ensures |r| == |right|
    ensures forall i :: 0 <= i < |r| ==> r[i] == d + right[i]
  {
    if right == [] then [] else [d + right[0]] + Meets(d, right[1..])
  }

  function Product(left: seq<seq<Clause>>, right: seq<seq<Clause>>): (r: seq<seq<Clause>>)
    ensures |r| == |left| * |right|
  {
    if left == [] then [] else Meets(left[0], right) + Product(left[1..], right)
  }

  /** The disjuncts of the tree, each the list of its conjuncts. A negation and
      `True` stand in them whole. */
  function Disjuncts(c: Clause): seq<seq<Clause>> {
    match c
    case And(left, right) => Product(Disjuncts(left), Disjuncts(right))
    case Or(left, right) => Disjuncts(left) + Disjuncts(right)
    case _ => [[c]]
  }

  function UnitedFacts(d: seq<Clause>): Mask {
    if d == [] then 0 else Unite(Fact(d[0]), UnitedFacts(d[1..]))
  }

  ghost predicate AllSatisfied(d: seq<Clause>, truths: set<Clause>) {
    forall l :: l in d ==> Satisfied(l, truths)
  }

  lemma {:induction false} InProduct(left: seq<seq<Clause>>, right: seq<seq<Clause>>, a: seq<Clause>, b: seq<Clause>)
    requires a in left && b in right
    ensures a + b in Product(left, right)
  {
    var row := Meets(left[0], right);
    if a == left[0] {
      var i :| 0 <= i < |right| && right[i] == b;
      assert row[i] == a + b;
    } else {
      assert a in left[1..];
      InProduct(left[1..], right, a, b);
    }
  }

  lemma {:induction false} OfProduct(left: seq<seq<Clause>>, right: seq<seq<Clause>>, d: seq<Clause>)
    returns (a: seq<Clause>, b: seq<Clause>)
    requires d in Product(left, right)
    ensures a in left && b in right && d == a + b
  {
    var row := Meets(left[0], right);
    if d in row {
      var i :| 0 <= i < |row| && row[i] == d;
      a, b := left[0], right[i];
    } else {
      a, b := OfProduct(left[1..], right, d);
    }
  }

  lemma {:induction false} NormalFormHolds(c: Clause, truths: set<Clause>)
    ensures Satisfied(c, truths) <==> exists d :: d in Disjuncts(c) && AllSatisfied(d, truths)
  {
    match c {
      case And(left, right) =>
        NormalFormHolds(left, truths);
        NormalFormHolds(right, truths);
        if Satisfied(c, truths) {
          var a :| a in Disjuncts(left) && AllSatisfied(a, truths);
          var b :| b in Disjuncts(right) && AllSatisfied(b, truths);
          InProduct(Disjuncts(left), Disjuncts(right), a, b);
          assert AllSatisfied(a + b, truths);
        }
        forall d | d in Disjuncts(c) && AllSatisfied(d, truths)
          ensures Satisfied(c, truths)
        {
          var a, b := OfProduct(Disjuncts(left), Disjuncts(right), d);
          assert AllSatisfied(a, truths) && AllSatisfied(b, truths);
        }
      case Or(left, right) =>
        NormalFormHolds(left, truths);
        NormalFormHolds(right, truths);
      case _ =>
        assert [c] in Disjuncts(c);
        assert AllSatisfied([c], truths) <==> Satisfied(c, truths) by {
          assert c in [c];
        }
    }
  }

  // The masks are the disjuncts' united facts.

  lemma {:induction false} FactsUnite(a: seq<Clause>, b: seq<Clause>)
    ensures UnitedFacts(a + b) == Unite(UnitedFacts(a), UnitedFacts(b))
  {
    if a == [] {
      assert a + b == b;
    } else {
      assert (a + b)[1..] == a[1..] + b;
      FactsUnite(a[1..], b);
    }
  }

  lemma {:induction false} InJoined(left: seq<Mask>, right: seq<Mask>, a: Mask, b: Mask)
    requires a in left && b in right
    ensures Unite(a, b) in Joined(left, right)
  {
    hide Row, Unite;
    if a == left[0] {
      var i :| 0 <= i < |right| && right[i] == b;
      assert Row(a, right)[i] == Unite(a, b);
    } else {
      InJoined(left[1..], right, a, b);
    }
  }

  lemma {:induction false} OfJoined(left: seq<Mask>, right: seq<Mask>, m: Mask) returns (a: Mask, b: Mask)
    requires m in Joined(left, right)
    ensures a in left && b in right && m == Unite(a, b)
  {
    hide Row, Unite;
    if m in Row(left[0], right) {
      var i :| 0 <= i < |right| && Row(left[0], right)[i] == m;
      a, b := left[0], right[i];
    } else {
      a, b := OfJoined(left[1..], right, m);
    }
  }

  lemma AlternativesAreCollected(c: Clause, m: Mask)
    ensures m in Alternatives(c) <==> m in Collected(c)
  {
    var collected := Collected(c);
    assert m in Sorted(collected) <==> m in multiset(Sorted(collected));
    assert m in collected <==> m in multiset(collected);
  }

  lemma FactsOfOne(c: Clause)
    ensures UnitedFacts([c]) == Fact(c)
  {
  }

  lemma {:induction false} DisjunctHasItsMask(c: Clause, d: seq<Clause>)
    requires d in Disjuncts(c)
    ensures UnitedFacts(d) in Alternatives(c)
  {
    hide Alternatives, Joined, Product, Fact, Unite;
    AlternativesAreCollected(c, UnitedFacts(d));
    match c {
      case And(left, right) =>
        var a, b := OfProduct(Disjuncts(left), Disjuncts(right), d);
        DisjunctHasItsMask(left, a);
        DisjunctHasItsMask(right, b);
        FactsUnite(a, b);
        InJoined(Alternatives(left), Alternatives(right), UnitedFacts(a), UnitedFacts(b));
      case Or(left, right) =>
        if d in Disjuncts(left) {
          DisjunctHasItsMask(left, d);
        } else {
          DisjunctHasItsMask(right, d);
        }
      case _ =>
        FactsOfOne(c);
    }
  }

  lemma {:induction false} MaskHasItsDisjunct(c: Clause, m: Mask) returns (d: seq<Clause>)
    requires m in Alternatives(c)
    ensures d in Disjuncts(c) && UnitedFacts(d) == m
  {
    hide Alternatives, Joined, Product, Fact, Unite;
    AlternativesAreCollected(c, m);
    match c {
      case And(left, right) =>
        var x, y := OfJoined(Alternatives(left), Alternatives(right), m);
        var a := MaskHasItsDisjunct(left, x);
        var b := MaskHasItsDisjunct(right, y);
        FactsUnite(a, b);
        InProduct(Disjuncts(left), Disjuncts(right), a, b);
        d := a + b;
      case Or(left, right) =>
        if m in Alternatives(left) {
          d := MaskHasItsDisjunct(left, m);
        } else {
          d := MaskHasItsDisjunct(right, m);
        }
      case _ =>
        d := [c];
        FactsOfOne(c);
    }
  }

  ghost predicate SomeDisjunctUnitesTo(c: Clause, m: Mask) {
    exists d :: d in Disjuncts(c) && UnitedFacts(d) == m
  }

  lemma AlternativesAreTheDisjunctMasks(c: Clause, m: Mask)
    ensures m in Alternatives(c) <==> SomeDisjunctUnitesTo(c, m)
  {
    if m in Alternatives(c) {
      var d := MaskHasItsDisjunct(c, m);
    }
    if SomeDisjunctUnitesTo(c, m) {
      var d :| d in Disjuncts(c) && UnitedFacts(d) == m;
      DisjunctHasItsMask(c, d);
    }
  }

  // Canonical form.

  lemma {:induction false} FirstIsLeast(masks: seq<Mask>, m: Mask)
    requires StrictlyAscending(masks) && masks != [] && m in masks[1..]
    ensures masks[0] < m
  {
    if m != masks[1] {
      FirstIsLeast(masks[1..], m);
    }
  }

  lemma NeitherEmptyAlone(a: seq<Mask>, b: seq<Mask>)
    requires a != [] && forall m :: m in a <==> m in b
    ensures b != []
  {
    var m := a[0];
    assert m in a;
  }

  lemma {:induction false} AscendingListIsItsSet(a: seq<Mask>, b: seq<Mask>)
    requires StrictlyAscending(a) && StrictlyAscending(b)
    requires forall m :: m in a <==> m in b
    ensures a == b
  {
    if a != [] {
      NeitherEmptyAlone(a, b);
    }
    if b != [] {
      NeitherEmptyAlone(b, a);
    }
    if a != [] {
      var x, y := a[0], b[0];
      assert x in a && y in b;
      if x != y {
        FirstIsLeast(a, y);
        FirstIsLeast(b, x);
      }
      forall m
        ensures m in a[1..] <==> m in b[1..]
      {
        if m in a[1..] {
          FirstIsLeast(a, m);
          assert m in a;
        }
        if m in b[1..] {
          FirstIsLeast(b, m);
          assert m in b;
        }
      }
      AscendingListIsItsSet(a[1..], b[1..]);
    }
  }

  /** Two trees whose disjuncts unite to the same masks get the same list. */
  lemma SameMasksSameAlternatives(c: Clause, d: Clause)
    requires forall m :: SomeDisjunctUnitesTo(c, m) <==> SomeDisjunctUnitesTo(d, m)
    ensures Alternatives(c) == Alternatives(d)
  {
    hide SomeDisjunctUnitesTo, Alternatives;
    forall m
      ensures m in Alternatives(c) <==> m in Alternatives(d)
    {
      AlternativesAreTheDisjunctMasks(c, m);
      AlternativesAreTheDisjunctMasks(d, m);
    }
    AscendingListIsItsSet(Alternatives(c), Alternatives(d));
  }

  lemma UniteLaws(a: Mask, b: Mask, c: Mask)
    ensures Unite(a, b) == Unite(b, a)
    ensures Unite(Unite(a, b), c) == Unite(a, Unite(b, c))
    ensures Unite(0, a) == a
  {
  }

  lemma AndCommutes(a: Clause, b: Clause)
    ensures Alternatives(And(a, b)) == Alternatives(And(b, a))
  {
    MasksOfSwappedAnd(a, b);
    MasksOfSwappedAnd(b, a);
    AscendingListIsItsSet(Alternatives(And(a, b)), Alternatives(And(b, a)));
  }

  lemma MasksOfSwappedAnd(a: Clause, b: Clause)
    ensures forall m :: m in Alternatives(And(a, b)) ==> m in Alternatives(And(b, a))
  {
    hide Alternatives, Joined, Unite;
    forall m | m in Alternatives(And(a, b))
      ensures m in Alternatives(And(b, a))
    {
      var x, y := OfAnd(a, b, m);
      UniteLaws(x, y, 0);
      InAnd(b, a, y, x);
    }
  }

  lemma InAnd(left: Clause, right: Clause, x: Mask, y: Mask)
    requires x in Alternatives(left) && y in Alternatives(right)
    ensures Unite(x, y) in Alternatives(And(left, right))
  {
    hide Alternatives, Joined, Unite;
    InJoined(Alternatives(left), Alternatives(right), x, y);
    AlternativesAreCollected(And(left, right), Unite(x, y));
  }

  lemma OfAnd(left: Clause, right: Clause, m: Mask) returns (x: Mask, y: Mask)
    requires m in Alternatives(And(left, right))
    ensures x in Alternatives(left) && y in Alternatives(right) && m == Unite(x, y)
  {
    hide Alternatives, Joined, Unite;
    AlternativesAreCollected(And(left, right), m);
    x, y := OfJoined(Alternatives(left), Alternatives(right), m);
  }

  lemma InOr(left: Clause, right: Clause, m: Mask)
    ensures m in Alternatives(Or(left, right)) <==> m in Alternatives(left) || m in Alternatives(right)
  {
    hide Alternatives;
    AlternativesAreCollected(Or(left, right), m);
  }

  lemma AndAssociates(a: Clause, b: Clause, c: Clause)
    ensures Alternatives(And(And(a, b), c)) == Alternatives(And(a, And(b, c)))
  {
    hide Alternatives, Joined, Unite;
    var l, r := And(And(a, b), c), And(a, And(b, c));
    forall m
      ensures m in Alternatives(l) <==> m in Alternatives(r)
    {
      if m in Alternatives(l) {
        var xy, z := OfAnd(And(a, b), c, m);
        var x, y := OfAnd(a, b, xy);
        InAnd(b, c, y, z);
        InAnd(a, And(b, c), x, Unite(y, z));
        UniteLaws(x, y, z);
      }
      if m in Alternatives(r) {
        var x, yz := OfAnd(a, And(b, c), m);
        var y, z := OfAnd(b, c, yz);
        InAnd(a, b, x, y);
        InAnd(And(a, b), c, Unite(x, y), z);
        UniteLaws(x, y, z);
      }
    }
    AscendingListIsItsSet(Alternatives(l), Alternatives(r));
  }

  lemma OrCommutesAndAssociates(a: Clause, b: Clause, c: Clause)
    ensures Alternatives(Or(a, b)) == Alternatives(Or(b, a))
    ensures Alternatives(Or(Or(a, b), c)) == Alternatives(Or(a, Or(b, c)))
  {
    hide Alternatives;
    forall m
      ensures m in Alternatives(Or(a, b)) <==> m in Alternatives(Or(b, a))
      ensures m in Alternatives(Or(Or(a, b), c)) <==> m in Alternatives(Or(a, Or(b, c)))
    {
      InOr(a, b, m);
      InOr(b, a, m);
      InOr(b, c, m);
      InOr(Or(a, b), c, m);
      InOr(a, Or(b, c), m);
    }
    AscendingListIsItsSet(Alternatives(Or(a, b)), Alternatives(Or(b, a)));
    AscendingListIsItsSet(Alternatives(Or(Or(a, b), c)), Alternatives(Or(a, Or(b, c))));
  }

  lemma AndDistributesOverOr(a: Clause, b: Clause, c: Clause)
    ensures Alternatives(And(a, Or(b, c))) == Alternatives(Or(And(a, b), And(a, c)))
  {
    hide Alternatives, Joined, Unite;
    var l, r := And(a, Or(b, c)), Or(And(a, b), And(a, c));
    forall m
      ensures m in Alternatives(l) <==> m in Alternatives(r)
    {
      InOr(And(a, b), And(a, c), m);
      if m in Alternatives(l) {
        var x, y := OfAnd(a, Or(b, c), m);
        InOr(b, c, y);
        if y in Alternatives(b) {
          InAnd(a, b, x, y);
        } else {
          InAnd(a, c, x, y);
        }
      }
      if m in Alternatives(And(a, b)) {
        var x, y := OfAnd(a, b, m);
        InOr(b, c, y);
        InAnd(a, Or(b, c), x, y);
      }
      if m in Alternatives(And(a, c)) {
        var x, y := OfAnd(a, c, m);
        InOr(b, c, y);
        InAnd(a, Or(b, c), x, y);
      }
    }
    AscendingListIsItsSet(Alternatives(l), Alternatives(r));
  }

  // The bound.

  predicate SevenBits(masks: seq<Mask>) {
    forall m :: m in masks ==> m < 128
  }

  lemma SevenBitsUnite(a: Mask, b: Mask)
    requires a < 128 && b < 128
    ensures Unite(a, b) < 128
  {
  }

  lemma FactIsSevenBits(c: Clause)
    ensures Fact(c) < 128
  {
  }

  lemma {:induction false} AlternativesAreSevenBits(c: Clause)
    ensures SevenBits(Alternatives(c))
  {
    hide Alternatives, Joined, Unite, Fact;
    forall m | m in Alternatives(c)
      ensures m < 128
    {
      match c {
        case And(left, right) =>
          var x, y := OfAnd(left, right, m);
          AlternativesAreSevenBits(left);
          AlternativesAreSevenBits(right);
          SevenBitsUnite(x, y);
        case Or(left, right) =>
          InOr(left, right, m);
          AlternativesAreSevenBits(left);
          AlternativesAreSevenBits(right);
        case _ =>
          AlternativesAreCollected(c, m);
          FactIsSevenBits(c);
      }
    }
  }

  lemma {:induction false} AscendingListIsShort(masks: seq<Mask>)
    requires StrictlyAscending(masks) && SevenBits(masks) && masks != []
    ensures masks[0] as int + |masks| <= 128
  {
    var first := masks[0];
    assert first in masks;
    if |masks| > 1 {
      assert forall m :: m in masks[1..] ==> m in masks;
      AscendingListIsShort(masks[1..]);
    }
  }

  /** However many disjuncts the tree has, the list holds at most 128 masks, and
      at most 16384 are collected on the way. */
  lemma AlternativesAreBounded(c: Clause)
    ensures |Alternatives(c)| <= 128 && |Collected(c)| <= 16384
  {
    hide Alternatives, Joined, Power;
    ListIsBounded(c);
    match c {
      case And(left, right) =>
        ListIsBounded(left);
        ListIsBounded(right);
        JoinedLength(Alternatives(left), Alternatives(right));
        ProductIsBounded(|Alternatives(left)|, |Alternatives(right)|);
      case Or(left, right) =>
        ListIsBounded(left);
        ListIsBounded(right);
      case _ =>
    }
  }

  lemma ProductIsBounded(a: nat, b: nat)
    requires a <= 128 && b <= 128
    ensures a * b <= 16384
  {
    NoMoreThan(a, 128, b);
  }

  lemma NoMoreThan(a: nat, b: nat, factor: nat)
    requires a <= b
    ensures a * factor <= b * factor
  {
    Distributes(a, b - a, factor);
  }

  lemma ListIsBounded(c: Clause)
    ensures |Alternatives(c)| <= 128
  {
    AlternativesAreSevenBits(c);
    if Alternatives(c) != [] {
      AscendingListIsShort(Alternatives(c));
    }
  }

  lemma {:induction false} JoinedLength(left: seq<Mask>, right: seq<Mask>)
    ensures |Joined(left, right)| == |left| * |right|
  {
    if left != [] {
      JoinedLength(left[1..], right);
    }
  }

  /** A tree of `n` nested choices. */
  function Choices(n: nat): Clause {
    if n == 0 then GenericAnchor else And(Or(CdHash([]), GenericAnchor), Choices(n - 1))
  }

  lemma {:induction false} DisjunctsExplode(n: nat)
    ensures |Disjuncts(Choices(n))| == Power(n)
  {
    if n > 0 {
      DisjunctsExplode(n - 1);
      assert |Disjuncts(Or(CdHash([]), GenericAnchor))| == 2;
    }
  }
}
