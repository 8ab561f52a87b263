/** What the judge's answer means. It is exact whether the occurrences of a leaf
    may differ in truth, or leaves with one clause agree, or, from the bytes, any
    two leaves of the expression spelled may differ. */
module RequirementJudgement {
  import opened Basics
  import opened RequirementBlob
  import opened RequirementGrammar
  import opened RequirementMeaning
  import opened RequirementStrength

  predicate Pins(l: Clause) {
    l.CdHash?
  }

  predicate Anchors(l: Clause) {
    l.GenericAnchor?
  }

  predicate Names(l: Clause) {
    l.Identifier? && l.id != []
  }

  predicate NamesTeam(l: Clause) {
    l.LeafField? && l.field == TEAM_FIELD && l.compared.Equals? && l.compared.value != []
  }

  /** The true leaves pin the code, or anchor and name it and show who signed. */
  ghost predicate NamesTheProduct(truths: set<Clause>) {
    || (exists l :: l in truths && Pins(l))
    || (&& (exists l :: l in truths && Anchors(l))
        && (exists l :: l in truths && Names(l))
        && (|| LeafExtension(APP_STORE_OID, Exists) in truths
            || (&& (exists l :: l in truths && NamesTeam(l))
                && IntermediateExtension(DEVELOPER_ID_CA_OID, Exists) in truths
                && LeafExtension(DEVELOPER_ID_LEAF_OID, Exists) in truths)))
  }

  lemma MoreTruthsNameTheProduct(some: set<Clause>, more: set<Clause>)
    requires some <= more && NamesTheProduct(some)
    ensures NamesTheProduct(more)
  {
  }

  // Facts as bits.

  predicate IsBit(bit: Mask) {
    bit in {PINNED, ANCHORED, NAMED, TEAM, APP_STORE, DEVELOPER_ID_CA, DEVELOPER_ID_LEAF}
  }

  lemma AdmitsByBits(m: Mask)
    ensures AdmitsOnlyTheProduct(m) <==>
            || m & PINNED != 0
            || (&& m & ANCHORED != 0 && m & NAMED != 0
                && (m & APP_STORE != 0 || (m & TEAM != 0 && m & DEVELOPER_ID_CA != 0 && m & DEVELOPER_ID_LEAF != 0)))
  {
  }

  lemma UniteBit(a: Mask, b: Mask, bit: Mask)
    ensures Unite(a, b) & bit != 0 <==> a & bit != 0 || b & bit != 0
  {
  }

  lemma FactBit(c: Clause, bit: Mask)
    requires IsBit(bit)
    ensures Fact(c) & bit != 0 <==> Fact(c) == bit
  {
  }

  lemma {:induction false} UnitedBit(d: seq<Clause>, bit: Mask)
    requires IsBit(bit)
    ensures UnitedFacts(d) & bit != 0 <==> exists l :: l in d && Fact(l) == bit
  {
    hide Fact, IsBit, Unite;
    if d != [] {
      UnitedBit(d[1..], bit);
      UniteBit(Fact(d[0]), UnitedFacts(d[1..]), bit);
      FactBit(d[0], bit);
      assert d == [d[0]] + d[1..];
    }
  }

  // Where `True` and negation stand.

  function Subtrees(c: Clause): set<Clause> {
    match c
    case And(left, right) => {c} + Subtrees(left) + Subtrees(right)
    case Or(left, right) => {c} + Subtrees(left) + Subtrees(right)
    case Not(negated) => {c} + Subtrees(negated)
    case _ => {c}
  }

  /** A tree is loosened exactly when `True` or a negation stands in it, at
      whatever depth. */
  lemma {:induction false} LoosenedByASubtree(c: Clause)
    ensures Loosened(c) <==> exists part :: part in Subtrees(c) && (part.True? || part.Not?)
  {
    match c
    case And(left, right) => LoosenedByASubtree(left); LoosenedByASubtree(right);
    case Or(left, right) => LoosenedByASubtree(left); LoosenedByASubtree(right);
    case _ => assert c in Subtrees(c);
  }

  // An assignment to each occurrence of a leaf.

  /** A truth value for every occurrence of a leaf in a tree of this shape. */
  datatype Truth = Both(left: Truth, right: Truth) | Under(negated: Truth) | Here(value: bool)

  predicate Fits(c: Clause, t: Truth) {
    match c
    case And(left, right) => t.Both? && Fits(left, t.left) && Fits(right, t.right)
    case Or(left, right) => t.Both? && Fits(left, t.left) && Fits(right, t.right)
    case Not(negated) => t.Under? && Fits(negated, t.negated)
    case True => true
    case _ => t.Here?
  }

  predicate ComesTrue(c: Clause, t: Truth)
    requires Fits(c, t)
  {
    match c
    case And(left, right) => ComesTrue(left, t.left) && ComesTrue(right, t.right)
    case Or(left, right) => ComesTrue(left, t.left) || ComesTrue(right, t.right)
    case Not(negated) => !ComesTrue(negated, t.negated)
    case True => true
    case _ => t.value
  }

  /** The leaves that are true somewhere outside every negation. */
  function Established(c: Clause, t: Truth): set<Clause>
    requires Fits(c, t)
  {
    match c
    case And(left, right) => Established(left, t.left) + Established(right, t.right)
    case Or(left, right) => Established(left, t.left) + Established(right, t.right)
    case Not(_) | True => {}
    case _ => if t.value then {c} else {}
  }

  ghost predicate Shows(truths: set<Clause>, bit: Mask) {
    exists l :: l in truths && Fact(l) == bit
  }

  /** Every fact of the mask is shown by a true leaf. */
  ghost predicate Supported(m: Mask, truths: set<Clause>) {
    forall bit :: IsBit(bit) && m & bit != 0 ==> Shows(truths, bit)
  }

  lemma SupportGrows(m: Mask, truths: set<Clause>, more: set<Clause>)
    requires Supported(m, truths) && truths <= more
    ensures Supported(m, more)
  {
    forall bit | IsBit(bit) && m & bit != 0
      ensures Shows(more, bit)
    {
      assert Shows(truths, bit);
    }
  }

  lemma SupportUnites(x: Mask, y: Mask, truths: set<Clause>)
    requires Supported(x, truths) && Supported(y, truths)
    ensures Supported(Unite(x, y), truths)
  {
    hide Unite, Shows, IsBit;
    forall bit | IsBit(bit) && Unite(x, y) & bit != 0
      ensures Shows(truths, bit)
    {
      UniteBit(x, y, bit);
    }
  }

  lemma LeafSupportsItsFact(c: Clause, truths: set<Clause>)
    requires Fact(c) == 0 || c in truths
    ensures Supported(Fact(c), truths)
  {
    hide Fact;
    forall bit | IsBit(bit) && Fact(c) & bit != 0
      ensures Shows(truths, bit)
    {
      FactBit(c, bit);
    }
  }

  /** A true tree has a mask all of whose facts are established. */
  lemma {:induction false} SomeMaskIsSupported(c: Clause, t: Truth) returns (m: Mask)
    requires Fits(c, t) && ComesTrue(c, t)
    ensures m in Alternatives(c) && Supported(m, Established(c, t))
  {
    hide Alternatives, Supported, Unite, Fact;
    match c {
      case And(left, right) =>
        var x := SomeMaskIsSupported(left, t.left);
        var y := SomeMaskIsSupported(right, t.right);
        SupportGrows(x, Established(left, t.left), Established(c, t));
        SupportGrows(y, Established(right, t.right), Established(c, t));
        SupportUnites(x, y, Established(c, t));
        InAnd(left, right, x, y);
        m := Unite(x, y);
      case Or(left, right) =>
        if ComesTrue(left, t.left) {
          m := SomeMaskIsSupported(left, t.left);
          SupportGrows(m, Established(left, t.left), Established(c, t));
        } else {
          m := SomeMaskIsSupported(right, t.right);
          SupportGrows(m, Established(right, t.right), Established(c, t));
        }
        InOr(left, right, m);
      case _ =>
        m := Fact(c);
        AlternativesAreCollected(c, m);
        OpaqueHasNoFact(c);
        LeafSupportsItsFact(c, Established(c, t));
    }
  }

  lemma OpaqueHasNoFact(c: Clause)
    ensures c.Not? || c.True? ==> Fact(c) == 0
  {
  }

  lemma SupportedMaskNames(m: Mask, truths: set<Clause>)
    requires AdmitsOnlyTheProduct(m) && Supported(m, truths)
    ensures NamesTheProduct(truths)
  {
    AdmitsByBits(m);
    assert m & PINNED != 0 ==> Shows(truths, PINNED);
    assert m & ANCHORED != 0 ==> Shows(truths, ANCHORED);
    assert m & NAMED != 0 ==> Shows(truths, NAMED);
    assert m & TEAM != 0 ==> Shows(truths, TEAM);
    assert m & APP_STORE != 0 ==> Shows(truths, APP_STORE);
    assert m & DEVELOPER_ID_CA != 0 ==> Shows(truths, DEVELOPER_ID_CA);
    assert m & DEVELOPER_ID_LEAF != 0 ==> Shows(truths, DEVELOPER_ID_LEAF);
    WhatShows(truths);
  }

  lemma WhatShows(truths: set<Clause>)
    ensures Shows(truths, PINNED) ==> exists l :: l in truths && Pins(l)
    ensures Shows(truths, ANCHORED) ==> exists l :: l in truths && Anchors(l)
    ensures Shows(truths, NAMED) ==> exists l :: l in truths && Names(l)
    ensures Shows(truths, TEAM) ==> exists l :: l in truths && NamesTeam(l)
    ensures Shows(truths, APP_STORE) ==> LeafExtension(APP_STORE_OID, Exists) in truths
    ensures Shows(truths, DEVELOPER_ID_CA) ==> IntermediateExtension(DEVELOPER_ID_CA_OID, Exists) in truths
    ensures Shows(truths, DEVELOPER_ID_LEAF) ==> LeafExtension(DEVELOPER_ID_LEAF_OID, Exists) in truths
  {
  }

  /** For any tree, negations and `True` included, and whatever truth value each
      occurrence of a leaf has: if every mask is admitted and the tree comes true,
      the leaves true outside the negations name the product. The refusal of
      loosened trees is not needed for this. */
  lemma AdmittedMasksAreSound(c: Clause, t: Truth)
    requires forall m :: m in Alternatives(c) ==> AdmitsOnlyTheProduct(m)
    requires Fits(c, t) && ComesTrue(c, t)
    ensures NamesTheProduct(Established(c, t))
  {
    hide Alternatives, NamesTheProduct, Supported;
    var m := SomeMaskIsSupported(c, t);
    SupportedMaskNames(m, Established(c, t));
  }

  ghost predicate EveryOccurrenceNames(c: Clause) {
    forall t :: Fits(c, t) && ComesTrue(c, t) ==> NamesTheProduct(Established(c, t))
  }

  // An assignment to each leaf, by its clause.

  /** The occurrences take the truth of their leaf. */
  function Spread(c: Clause, truths: set<Clause>): (t: Truth)
    ensures Fits(c, t)
  {
    match c
    case And(left, right) => Both(Spread(left, truths), Spread(right, truths))
    case Or(left, right) => Both(Spread(left, truths), Spread(right, truths))
    case Not(negated) => Under(Spread(negated, truths))
    case _ => Here(c in truths)
  }

  lemma {:induction false} SpreadAgrees(c: Clause, truths: set<Clause>)
    ensures ComesTrue(c, Spread(c, truths)) <==> Satisfied(c, truths)
    ensures Established(c, Spread(c, truths)) <= truths
  {
    match c
    case And(left, right) => SpreadAgrees(left, truths); SpreadAgrees(right, truths);
    case Or(left, right) => SpreadAgrees(left, truths); SpreadAgrees(right, truths);
    case Not(negated) => SpreadAgrees(negated, truths);
    case _ =>
  }

  lemma {:induction false} DisjunctsUseTheLeaves(c: Clause, d: seq<Clause>, l: Clause)
    requires d in Disjuncts(c) && l in d
    ensures IsLeaf(l) ==> l in Leaves(c)
    ensures !Loosened(c) ==> IsLeaf(l)
  {
    match c {
      case And(left, right) =>
        var a, b := OfProduct(Disjuncts(left), Disjuncts(right), d);
        if l in a {
          DisjunctsUseTheLeaves(left, a, l);
        } else {
          DisjunctsUseTheLeaves(right, b, l);
        }
      case Or(left, right) =>
        if d in Disjuncts(left) {
          DisjunctsUseTheLeaves(left, d, l);
        } else {
          DisjunctsUseTheLeaves(right, d, l);
        }
      case _ =>
    }
  }

  /** If the leaves of a disjunct name the product, its mask is
      admitted. */
  lemma NamingDisjunctIsAdmitted(d: seq<Clause>)
    requires NamesTheProduct(set l | l in d)
    ensures AdmitsOnlyTheProduct(UnitedFacts(d))
  {
    AdmitsByBits(UnitedFacts(d));
    UnitedBit(d, PINNED);
    UnitedBit(d, ANCHORED);
    UnitedBit(d, NAMED);
    UnitedBit(d, TEAM);
    UnitedBit(d, APP_STORE);
    UnitedBit(d, DEVELOPER_ID_CA);
    UnitedBit(d, DEVELOPER_ID_LEAF);
  }

  /** A mask that is not admitted gives a countermodel: the leaves of its
      disjunct, and nothing else, true. */
  lemma RefusedMaskHasCountermodel(c: Clause, m: Mask) returns (truths: set<Clause>)
    requires !Loosened(c) && m in Alternatives(c) && !AdmitsOnlyTheProduct(m)
    ensures truths <= Leaves(c) && Satisfied(c, truths) && !NamesTheProduct(truths)
  {
    hide Alternatives, NamesTheProduct;
    var d := MaskHasItsDisjunct(c, m);
    truths := set l | l in d;
    forall l | l in d
      ensures l in Leaves(c) && Satisfied(l, truths)
    {
      DisjunctsUseTheLeaves(c, d, l);
    }
    NormalFormHolds(c, truths);
    if NamesTheProduct(truths) {
      NamingDisjunctIsAdmitted(d);
    }
  }

  ghost predicate EverySatisfactionNames(c: Clause) {
    forall truths :: truths <= Leaves(c) && Satisfied(c, truths) ==> NamesTheProduct(truths)
  }

  lemma OccurrencesCoverSatisfactions(c: Clause)
    requires EveryOccurrenceNames(c)
    ensures EverySatisfactionNames(c)
  {
    hide NamesTheProduct;
    forall truths | truths <= Leaves(c) && Satisfied(c, truths)
      ensures NamesTheProduct(truths)
    {
      SpreadAgrees(c, truths);
      MoreTruthsNameTheProduct(Established(c, Spread(c, truths)), truths);
    }
  }

  /** The judge's answer, stated without masks; for the trees it accepts it makes
      no difference whether occurrences of one clause may differ in truth. */
  lemma JudgeIsExact(c: Clause)
    ensures IsStrong(c) <==> !Loosened(c) && EveryOccurrenceNames(c)
    ensures IsStrong(c) <==> !Loosened(c) && EverySatisfactionNames(c)
  {
    hide Alternatives, NamesTheProduct, EverySatisfactionNames, EveryOccurrenceNames;
    if IsStrong(c) {
      StrongIsSound(c);
    }
    if EveryOccurrenceNames(c) {
      OccurrencesCoverSatisfactions(c);
    }
    if !Loosened(c) && !IsStrong(c) {
      var m :| m in Alternatives(c) && !AdmitsOnlyTheProduct(m);
      var truths := RefusedMaskHasCountermodel(c, m);
      CountermodelRefutes(c, truths);
    }
  }

  lemma StrongIsSound(c: Clause)
    requires IsStrong(c)
    ensures EveryOccurrenceNames(c)
  {
    hide Alternatives, NamesTheProduct;
    forall t | Fits(c, t) && ComesTrue(c, t)
      ensures NamesTheProduct(Established(c, t))
    {
      AdmittedMasksAreSound(c, t);
    }
  }

  lemma CountermodelRefutes(c: Clause, truths: set<Clause>)
    requires truths <= Leaves(c) && Satisfied(c, truths) && !NamesTheProduct(truths)
    ensures !EverySatisfactionNames(c)
  {
  }

  /** Refusing loosened trees only narrows what is accepted: this one is sound
      and is refused all the same. */
  lemma LoosenedTreeMayBeSound(hash: seq<byte>)
    ensures var c := And(CdHash(hash), True);
            EveryOccurrenceNames(c) && !IsStrong(c)
  {
    var c := And(CdHash(hash), True);
    forall t | Fits(c, t) && ComesTrue(c, t)
      ensures NamesTheProduct(Established(c, t))
    {
      assert ComesTrue(c.left, t.left) && Established(c.left, t.left) == {CdHash(hash)};
      assert CdHash(hash) in Established(c, t) && Pins(CdHash(hash));
    }
    assert Loosened(True);
  }

  // An assignment to each leaf of the expression spelled.

  /** The leaves of an expression, told apart by opcode, slot, data and filling;
      `always` is none. */
  function LeavesOf(e: Expression): (leaves: set<Expression>)
    requires e.Valid()
    ensures forall l :: l in leaves ==> l.Valid() && !l.Nested()
  {
    match e
    case Binary(_, left, right) => LeavesOf(left) + LeavesOf(right)
    case Negation(negated) => LeavesOf(negated)
    case _ => if e == Bare(1) then {} else {e}
  }

  predicate Holds(e: Expression, truths: set<Expression>)
    requires e.Valid()
  {
    match e
    case Binary(code, left, right) =>
      if code == 6 then Holds(left, truths) && Holds(right, truths) else Holds(left, truths) || Holds(right, truths)
    case Negation(negated) => !Holds(negated, truths)
    case _ => e == Bare(1) || e in truths
  }

  /** The clauses of the true leaves. */
  ghost function Meanings(e: Expression, truths: set<Expression>): set<Clause>
    requires e.Valid()
  {
    set l | l in LeavesOf(e) && l in truths :: l.Meaning()
  }

  function SpreadOver(e: Expression, truths: set<Expression>): Truth {
    match e
    case Binary(_, left, right) => Both(SpreadOver(left, truths), SpreadOver(right, truths))
    case Negation(negated) => Under(SpreadOver(negated, truths))
    case _ => Here(e in truths)
  }

  lemma LeafMeansALeaf(e: Expression)
    requires e.Valid() && !e.Nested()
    ensures if e == Bare(1) then e.Meaning() == True else IsLeaf(e.Meaning())
  {
  }

  lemma {:induction false} SpreadOverAgrees(e: Expression, truths: set<Expression>)
    requires e.Valid()
    ensures var c, t := e.Meaning(), SpreadOver(e, truths);
            && Fits(c, t) && (ComesTrue(c, t) <==> Holds(e, truths))
            && Established(c, t) <= Meanings(e, truths)
  {
    match e {
      case Binary(_, left, right) =>
        SpreadOverAgrees(left, truths);
        SpreadOverAgrees(right, truths);
      case Negation(negated) =>
        SpreadOverAgrees(negated, truths);
      case _ =>
        LeafMeansALeaf(e);
        assert e in LeavesOf(e) && e in truths ==> e.Meaning() in Meanings(e, truths);
    }
  }

  lemma {:induction false} SameTruthsHold(e: Expression, truths: set<Expression>, clauses: set<Clause>)
    requires e.Valid() && forall l :: l in LeavesOf(e) ==> (l in truths <==> l.Meaning() in clauses)
    ensures Holds(e, truths) <==> Satisfied(e.Meaning(), clauses)
  {
    match e {
      case Binary(_, left, right) =>
        SameTruthsHold(left, truths, clauses);
        SameTruthsHold(right, truths, clauses);
      case Negation(negated) =>
        SameTruthsHold(negated, truths, clauses);
      case _ =>
        LeafMeansALeaf(e);
    }
  }

  // What the spelled leaves say, by opcode, slot and data.

  /** A number in base 128, all digits but the last marked, as section 8.19 of
      X.690 has it. */
  function Base128(n: nat): seq<byte> {
    if n < 128 then [n] else Marked(n / 128) + [n % 128]
  }

  function Marked(n: nat): seq<byte> {
    if n < 128 then [128 + n] else Marked(n / 128) + [128 + n % 128]
  }

  function AllBase128(arcs: seq<nat>): seq<byte> {
    if arcs == [] then [] else Base128(arcs[0]) + AllBase128(arcs[1..])
  }

  /** An object identifier: the first two arcs share a byte. */
  function ObjectIdentifier(first: nat, second: nat, arcs: seq<nat>): seq<byte> {
    Base128(40 * first + second) + AllBase128(arcs)
  }

  /** The markers are 1.2.840.113635.100.6.1.9, 1.2.840.113635.100.6.2.6 and
      1.2.840.113635.100.6.1.13, and the field of the team is `subject.OU`. */
  lemma MarkersAreWritten()
    ensures APP_STORE_OID == ObjectIdentifier(1, 2, [840, 113635, 100, 6, 1, 9])
    ensures DEVELOPER_ID_CA_OID == ObjectIdentifier(1, 2, [840, 113635, 100, 6, 2, 6])
    ensures DEVELOPER_ID_LEAF_OID == ObjectIdentifier(1, 2, [840, 113635, 100, 6, 1, 13])
    ensures |TEAM_FIELD| == |"subject.OU"| &&
            forall i :: 0 <= i < |TEAM_FIELD| ==> TEAM_FIELD[i] == "subject.OU"[i] as int
  {
    MarkerIsWritten(1, 9);
    MarkerIsWritten(2, 6);
    MarkerIsWritten(1, 13);
  }

  lemma MarkerIsWritten(a: nat, b: nat)
    requires a < 128 && b < 128
    ensures ObjectIdentifier(1, 2, [840, 113635, 100, 6, a, b]) == [0x2a, 0x86, 0x48, 0x86, 0xf7, 0x63, 0x64, 0x06, a, b]
  {
    assert Base128(42) == [0x2a] && Base128(840) == [0x86, 0x48] && Base128(100) == [0x64];
    assert Marked(113635 / 128) == [0x86, 0xf7];
    assert Base128(113635) == [0x86, 0xf7, 0x63];
    assert AllBase128([b]) == [b] by {
      assert [b][1..] == [];
    }
    FirstArc(a, [b]);
    FirstArc(6, [a, b]);
    FirstArc(100, [6, a, b]);
    FirstArc(113635, [100, 6, a, b]);
    FirstArc(840, [113635, 100, 6, a, b]);
  }

  lemma FirstArc(first: nat, rest: seq<nat>)
    ensures AllBase128([first] + rest) == Base128(first) + AllBase128(rest)
  {
    assert ([first] + rest)[1..] == rest;
  }

  predicate SpellsPin(l: Expression) {
    l.WithData? && l.code == 8
  }

  predicate SpellsAnchor(l: Expression) {
    l == Bare(15)
  }

  predicate SpellsName(l: Expression) {
    l.WithData? && l.code == 2 && l.data.bytes != []
  }

  /** `certificate leaf[subject.OU] = "..."`, of a team that has a name. */
  predicate SpellsTeam(l: Expression) {
    && l.OnCertificate? && l.code == 11 && l.slot == 0 && l.data.bytes == TEAM_FIELD
    && l.test.Against? && l.test.code == 1 && l.test.data.bytes != []
  }

  /** The presence of an extension: slot 0 is the leaf, slot 1 its issuer. */
  predicate SpellsExtension(l: Expression, slot: u32, oid: seq<byte>) {
    l.OnCertificate? && l.code == 14 && l.slot == slot && l.data.bytes == oid && l.test.Presence?
  }

  /** The true leaves pin the code, or anchor and name it and show who signed. */
  ghost predicate SpellsTheProduct(truths: set<Expression>) {
    || (exists l :: l in truths && SpellsPin(l))
    || (&& (exists l :: l in truths && SpellsAnchor(l))
        && (exists l :: l in truths && SpellsName(l))
        && (|| (exists l :: l in truths && SpellsExtension(l, 0, APP_STORE_OID))
            || (&& (exists l :: l in truths && SpellsTeam(l))
                && (exists l :: l in truths && SpellsExtension(l, 1, DEVELOPER_ID_CA_OID))
                && (exists l :: l in truths && SpellsExtension(l, 0, DEVELOPER_ID_LEAF_OID)))))
  }

  lemma LeafSpells(l: Expression)
    requires l.Valid() && !l.Nested()
    ensures Pins(l.Meaning()) <==> SpellsPin(l)
    ensures Anchors(l.Meaning()) <==> SpellsAnchor(l)
    ensures Names(l.Meaning()) <==> SpellsName(l)
    ensures NamesTeam(l.Meaning()) <==> SpellsTeam(l)
    ensures l.Meaning() == LeafExtension(APP_STORE_OID, Exists) <==> SpellsExtension(l, 0, APP_STORE_OID)
    ensures l.Meaning() == LeafExtension(DEVELOPER_ID_LEAF_OID, Exists) <==> SpellsExtension(l, 0, DEVELOPER_ID_LEAF_OID)
    ensures l.Meaning() == IntermediateExtension(DEVELOPER_ID_CA_OID, Exists) <==>
            SpellsExtension(l, 1, DEVELOPER_ID_CA_OID)
  {
  }

  lemma SpellingIsNaming(e: Expression, truths: set<Expression>)
    requires e.Valid() && truths <= LeavesOf(e)
    ensures SpellsTheProduct(truths) <==> NamesTheProduct(Meanings(e, truths))
  {
    hide Pins, Anchors, Names, NamesTeam, SpellsPin, SpellsAnchor, SpellsName, SpellsTeam, SpellsExtension, LeavesOf;
    var clauses := Meanings(e, truths);
    forall l | l in truths
      ensures l.Valid() && !l.Nested() && l.Meaning() in clauses
    {
    }
    forall l | l in truths
      ensures Pins(l.Meaning()) <==> SpellsPin(l)
      ensures Anchors(l.Meaning()) <==> SpellsAnchor(l)
      ensures Names(l.Meaning()) <==> SpellsName(l)
      ensures NamesTeam(l.Meaning()) <==> SpellsTeam(l)
      ensures l.Meaning() == LeafExtension(APP_STORE_OID, Exists) <==> SpellsExtension(l, 0, APP_STORE_OID)
      ensures l.Meaning() == LeafExtension(DEVELOPER_ID_LEAF_OID, Exists) <==>
              SpellsExtension(l, 0, DEVELOPER_ID_LEAF_OID)
      ensures l.Meaning() == IntermediateExtension(DEVELOPER_ID_CA_OID, Exists) <==>
              SpellsExtension(l, 1, DEVELOPER_ID_CA_OID)
    {
      LeafSpells(l);
    }
  }

  ghost predicate EveryReadingNames(e: Expression)
    requires e.Valid()
  {
    forall truths :: truths <= LeavesOf(e) && Holds(e, truths) ==> SpellsTheProduct(truths)
  }

  /** The parts of an expression, itself included. */
  function Parts(e: Expression): set<Expression> {
    match e
    case Binary(_, left, right) => {e} + Parts(left) + Parts(right)
    case Negation(negated) => {e} + Parts(negated)
    case _ => {e}
  }

  /** Neither `always` nor a negation stands anywhere in it. */
  ghost predicate Unloosened(e: Expression) {
    forall part :: part in Parts(e) ==> part != Bare(1) && !part.Negation?
  }

  lemma {:induction false} UnloosenedMeaning(e: Expression)
    requires e.Valid()
    ensures Unloosened(e) <==> !Loosened(e.Meaning())
  {
    assert e in Parts(e);
    match e {
      case Binary(_, left, right) =>
        UnloosenedMeaning(left);
        UnloosenedMeaning(right);
        assert forall part :: part in Parts(e) <==> part == e || part in Parts(left) || part in Parts(right);
        assert Unloosened(e) <==> Unloosened(left) && Unloosened(right);
      case Negation(_) =>
      case _ =>
        LeafMeansALeaf(e);
    }
  }

  /** Soundness over the predicates a requirement spells, however many of them the
      parser takes for one clause. */
  lemma AdmittedRequirementIsSound(e: Expression, truths: set<Expression>)
    requires e.Valid() && truths <= LeavesOf(e) && Holds(e, truths)
    requires forall m :: m in Alternatives(e.Meaning()) ==> AdmitsOnlyTheProduct(m)
    ensures SpellsTheProduct(truths)
  {
    hide Alternatives, NamesTheProduct, Meanings, SpellsTheProduct, LeavesOf;
    SpreadOverAgrees(e, truths);
    AdmittedMasksAreSound(e.Meaning(), SpreadOver(e, truths));
    MoreTruthsNameTheProduct(Established(e.Meaning(), SpreadOver(e, truths)), Meanings(e, truths));
    SpellingIsNaming(e, truths);
  }

  lemma ReadingsCoverSatisfactions(e: Expression)
    requires e.Valid() && EveryReadingNames(e)
    ensures EverySatisfactionNames(e.Meaning())
  {
    hide NamesTheProduct, SpellsTheProduct;
    forall clauses | clauses <= Leaves(e.Meaning()) && Satisfied(e.Meaning(), clauses)
      ensures NamesTheProduct(clauses)
    {
      var truths := set l | l in LeavesOf(e) && l.Meaning() in clauses;
      SameTruthsHold(e, truths, clauses);
      SpellingIsNaming(e, truths);
      MoreTruthsNameTheProduct(Meanings(e, truths), clauses);
    }
  }

  /** The judge's answer about the clause is the answer about the expression. */
  lemma JudgeIsExactForRequirements(e: Expression)
    requires e.Valid()
    ensures IsStrong(e.Meaning()) <==> Unloosened(e) && EveryReadingNames(e)
  {
    hide Alternatives, NamesTheProduct, SpellsTheProduct, Loosened, Unloosened, Meanings, Holds, LeavesOf,
      EverySatisfactionNames, EveryOccurrenceNames;
    JudgeIsExact(e.Meaning());
    UnloosenedMeaning(e);
    if IsStrong(e.Meaning()) {
      forall truths | truths <= LeavesOf(e) && Holds(e, truths)
        ensures SpellsTheProduct(truths)
      {
        AdmittedRequirementIsSound(e, truths);
      }
    }
    if EveryReadingNames(e) {
      ReadingsCoverSatisfactions(e);
    }
  }

  /** From bytes to meaning: a requirement is accepted exactly when it compiles to
      the writing of an expression of at most 64 levels, free of `always` and of
      negation, such that whichever of its leaves are true, they name the product
      if the expression holds. */
  lemma AcceptedBlobNamesTheProduct(compiled: Option<seq<byte>>)
    ensures EnsureStrong(compiled) == Accepted <==>
            exists e :: && compiled.Some? && Spells(compiled.value, e) && e.Levels() <= 64
                        && Unloosened(e) && EveryReadingNames(e)
  {
    hide IsStrong, Unloosened, EveryReadingNames, ParsedStep, Written;
    if EnsureStrong(compiled) == Accepted {
      var e := ParsedWasWritten(compiled.value);
      JudgeIsExactForRequirements(e);
    }
    forall e | compiled.Some? && Spells(compiled.value, e) && e.Levels() <= 64 && Unloosened(e) && EveryReadingNames(e)
      ensures EnsureStrong(compiled) == Accepted
    {
      WrittenParses(e);
      JudgeIsExactForRequirements(e);
    }
  }

  /** The entitlement test of a string. */
  function Entitled(key: Padded): Expression {
    WithTest(16, key, Presence)
  }

  lemma NegationMeans(e: Expression)
    requires e.Valid()
    ensures Negation(e).Valid() && Negation(e).Meaning() == Not(e.Meaning())
  {
  }

  lemma ConjunctionMeans(left: Expression, right: Expression)
    requires left.Valid() && right.Valid()
    ensures Binary(6, left, right).Valid() && Binary(6, left, right).Meaning() == And(left.Meaning(), right.Meaning())
  {
  }

  /** `!` entitlement `a` and entitlement `b` and the code hash `hash`. */
  function Apart(a: Padded, b: Padded, hash: Padded): (e: Expression)
    requires a.Valid() && b.Valid() && hash.Valid()
    ensures e.Valid() && e.Meaning() == And(And(Not(Other), Other), CdHash(hash.bytes))
  {
    var negation := Negation(Entitled(a));
    NegationMeans(Entitled(a));
    var both := Binary(6, negation, Entitled(b));
    ConjunctionMeans(negation, Entitled(b));
    ConjunctionMeans(both, WithData(8, hash));
    Binary(6, both, WithData(8, hash))
  }

  /** Why the leaves must be told apart under a negation: this requirement can
      hold, although the parser takes both entitlements for one clause, under which
      the tree could not; its masks are admitted, and it does name the product. */
  lemma OpaqueLeavesAreApart(a: Padded, b: Padded, hash: Padded)
    requires a.Valid() && b.Valid() && hash.Valid() && a != b
    ensures var e := Apart(a, b, hash);
            && Holds(e, {Entitled(b), WithData(8, hash)})
            && (forall clauses :: !Satisfied(e.Meaning(), clauses))
            && (forall m :: m in Alternatives(e.Meaning()) ==> AdmitsOnlyTheProduct(m))
            && (forall truths :: truths <= LeavesOf(e) && Holds(e, truths) ==> SpellsTheProduct(truths))
  {
    hide Alternatives, SpellsTheProduct, LeavesOf;
    var e := Apart(a, b, hash);
    var c := And(And(Not(Other), Other), CdHash(hash.bytes));
    ApartHolds(a, b, hash);
    forall clauses
      ensures !Satisfied(c, clauses)
    {
      assert Satisfied(c.left, clauses) <==> Satisfied(Not(Other), clauses) && Satisfied(Other, clauses);
    }
    forall m | m in Alternatives(c)
      ensures AdmitsOnlyTheProduct(m)
    {
      var x, y := OfAnd(c.left, c.right, m);
      AlternativesAreCollected(c.right, y);
      PinnedIsAdmitted(x);
      UniteLaws(x, y, 0);
    }
    forall truths | truths <= LeavesOf(e) && Holds(e, truths)
      ensures SpellsTheProduct(truths)
    {
      AdmittedRequirementIsSound(e, truths);
    }
  }

  lemma ApartHolds(a: Padded, b: Padded, hash: Padded)
    requires a.Valid() && b.Valid() && hash.Valid() && a != b
    ensures Holds(Apart(a, b, hash), {Entitled(b), WithData(8, hash)})
  {
    var truths := {Entitled(b), WithData(8, hash)};
    assert !Holds(Entitled(a), truths) && Holds(Entitled(b), truths) && Holds(WithData(8, hash), truths);
    assert Holds(Negation(Entitled(a)), truths);
    assert Holds(Binary(6, Negation(Entitled(a)), Entitled(b)), truths);
  }

  lemma PinnedIsAdmitted(m: Mask)
    ensures AdmitsOnlyTheProduct(Unite(m, PINNED))
  {
  }
}
