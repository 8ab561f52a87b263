/** The judge of a parsed requirement: it collapses the and/or tree into a
    sorted, deduplicated list of seven-bit masks, one bit per fact, and asks
    whether every mask names the product. */
module RequirementStrength {
  import opened Basics
  import opened RequirementBlob

  const TEAM_FIELD: seq<byte> := [0x73, 0x75, 0x62, 0x6a, 0x65, 0x63, 0x74, 0x2e, 0x4f, 0x55]
  const APP_STORE_OID: seq<byte> := [0x2a, 0x86, 0x48, 0x86, 0xf7, 0x63, 0x64, 0x06, 0x01, 0x09]
  const DEVELOPER_ID_CA_OID: seq<byte> := [0x2a, 0x86, 0x48, 0x86, 0xf7, 0x63, 0x64, 0x06, 0x02, 0x06]
  const DEVELOPER_ID_LEAF_OID: seq<byte> := [0x2a, 0x86, 0x48, 0x86, 0xf7, 0x63, 0x64, 0x06, 0x01, 0x0d]

  type Mask = bv8

  const PINNED: Mask := 1
  const ANCHORED: Mask := 2
  const NAMED: Mask := 4
  const TEAM: Mask := 8
  const APP_STORE: Mask := 16
  const DEVELOPER_ID_CA: Mask := 32
  const DEVELOPER_ID_LEAF: Mask := 64
  const DEVELOPER_ID: Mask := TEAM | DEVELOPER_ID_CA | DEVELOPER_ID_LEAF

  function Fact(clause: Clause): Mask {
    match clause
    case CdHash(_) => PINNED
    case GenericAnchor => ANCHORED
    case Identifier(id) => if id != [] then NAMED else 0
    case LeafField(field, Equals(team)) => if field == TEAM_FIELD && team != [] then TEAM else 0
    case LeafExtension(oid, Exists) =>
      if oid == APP_STORE_OID then APP_STORE
      else if oid == DEVELOPER_ID_LEAF_OID then DEVELOPER_ID_LEAF
      else 0
    case IntermediateExtension(oid, Exists) => if oid == DEVELOPER_ID_CA_OID then DEVELOPER_ID_CA else 0
    case _ => 0
  }

  predicate AdmitsOnlyTheProduct(facts: Mask) {
    var signedByTheProduct := facts & DEVELOPER_ID == DEVELOPER_ID || facts & APP_STORE != 0;
    var identified := facts & (ANCHORED | NAMED) == ANCHORED | NAMED;
    facts & PINNED != 0 || (identified && signedByTheProduct)
  }

  predicate Loosened(clause: Clause) {
    match clause
    case True | Not(_) => true
    case And(left, right) => Loosened(left) || Loosened(right)
    case Or(left, right) => Loosened(left) || Loosened(right)
    case _ => false
  }

  // Sorting and deduplicating the collected masks.

  predicate Ascending(masks: seq<Mask>) {
    |masks| <= 1 || (masks[0] <= masks[1] && Ascending(masks[1..]))
  }

  predicate StrictlyAscending(masks: seq<Mask>) {
    |masks| <= 1 || (masks[0] < masks[1] && StrictlyAscending(masks[1..]))
  }

  function Inserted(m: Mask, masks: seq<Mask>): (r: seq<Mask>)
    requires Ascending(masks)
    ensures Ascending(r)
    ensures r != [] && (r[0] == m || (masks != [] && r[0] == masks[0]))
  {
    if masks == [] || m <= masks[0] then [m] + masks else [masks[0]] + Inserted(m, masks[1..])
  }

  lemma {:induction false} InsertedKeepsAll(m: Mask, masks: seq<Mask>)
    requires Ascending(masks)
    ensures multiset(Inserted(m, masks)) == multiset(masks) + multiset{m}
  {
    if masks != [] && masks[0] < m {
      assert masks == [masks[0]] + masks[1..];
      InsertedKeepsAll(m, masks[1..]);
    }
  }

  /** The one ascending arrangement of a list: what an unstable sort of plain
      integers returns. */
  function Sorted(masks: seq<Mask>): (r: seq<Mask>)
    ensures Ascending(r) && multiset(r) == multiset(masks)
  {
    if masks == [] then
      []
    else
      assert masks == [masks[0]] + masks[1..];
      InsertedKeepsAll(masks[0], Sorted(masks[1..]));
      Inserted(masks[0], Sorted(masks[1..]))
  }

  /** Drops every element equal to the one after it. */
  function Dedup(masks: seq<Mask>): (r: seq<Mask>)
    ensures Ascending(masks) ==> StrictlyAscending(r)
    ensures masks != [] ==> r != [] && r[0] == masks[0]
    ensures forall x :: x in r <==> x in masks
  {
    if |masks| <= 1 then
      masks
    else
      assert masks == [masks[0]] + masks[1..];
      if masks[0] == masks[1] then Dedup(masks[1..]) else [masks[0]] + Dedup(masks[1..])
  }

  function Unite(a: Mask, b: Mask): Mask {
    a | b
  }

  /** One mask of the left united with each mask of the right. */
  function Row(m: Mask, right: seq<Mask>): (r: seq<Mask>)
    ensures |r| == |right|
    ensures forall i :: 0 <= i < |r| ==> r[i] == Unite(m, right[i])
  {
    if right == [] then [] else [Unite(m, right[0])] + Row(m, right[1..])
  }

  function Joined(left: seq<Mask>, right: seq<Mask>): seq<Mask> {
    if left == [] then [] else Row(left[0], right) + Joined(left[1..], right)
  }

  function Collected(clause: Clause): seq<Mask>
    decreases clause, 0
  {
    match clause
    case And(left, right) => Joined(Alternatives(left), Alternatives(right))
    case Or(left, right) => Alternatives(left) + Alternatives(right)
    case _ => [Fact(clause)]
  }

  function Alternatives(clause: Clause): (found: seq<Mask>)
    ensures StrictlyAscending(found)
    decreases clause, 1
  {
    Dedup(Sorted(Collected(clause)))
  }

  method FindAlternatives(clause: Clause) returns (found: seq<Mask>)
    ensures found == Alternatives(clause)
  {
    match clause {
      case And(left, right) =>
        var rights := FindAlternatives(right);
        var lefts := FindAlternatives(left);
        found := Joined(lefts, rights);
      case Or(left, right) =>
        var lefts := FindAlternatives(left);
        var rights := FindAlternatives(right);
        found := lefts + rights;
      case other =>
        found := [Fact(other)];
    }
    found := Sorted(found);
    found := Dedup(found);
  }

  predicate IsStrong(compiled: Clause) {
    !Loosened(compiled) && forall m :: m in Alternatives(compiled) ==> AdmitsOnlyTheProduct(m)
  }

  datatype Verdict = Accepted | DoesNotCompile | DoesNotParse(error: Refusal) | TooWeak

  /** The whole judgement, from what the system's compiler made of the text. */
  function EnsureStrong(compiled: Option<seq<byte>>): Verdict {
    match compiled
    case None => DoesNotCompile
    case Some(blob) =>
      match Parsed(blob)
      case Err(error) => DoesNotParse(error)
      case Ok(clause) => if IsStrong(clause) then Accepted else TooWeak
  }
}
