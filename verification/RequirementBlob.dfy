/** The parser of a compiled code requirement: a recursive descent over a
    big-endian, four-byte-padded expression, driven by a cursor.

    `Reader` is the cursor. Each of its methods is proved equal to a function of
    the blob and the cursor position (`TakeAt`, `WordAt`, ...), which also says
    where the cursor stops when the read is refused. */
module RequirementBlob {
  import opened Basics

  const MAGIC: u32 := 0xfade_0c00
  const EXPRESSION_FORM: u32 := 1
  const MAX_DEPTH: nat := 64

  datatype Comparison = Exists | Equals(value: seq<byte>) | OtherComparison

  datatype Clause =
    | And(left: Clause, right: Clause)
    | Or(left: Clause, right: Clause)
    | Not(negated: Clause)
    | True
    | GenericAnchor
    | Identifier(id: seq<byte>)
    | CdHash(hash: seq<byte>)
    | LeafField(field: seq<byte>, compared: Comparison)
    | LeafExtension(oid: seq<byte>, compared: Comparison)
    | IntermediateExtension(oid: seq<byte>, compared: Comparison)
    | Other

  datatype Refusal =
    | Truncated
    | NotARequirement
    | LengthDiffers
    | UnknownForm
    | TrailingBytes
    | TooDeep
    | UnknownComparison(code: u32)
    | UnknownOpcode(code: u32)

  /** What one read yields, and where it leaves the cursor. */
  datatype Step<+T> = Got(value: T, at: nat) | Refused(error: Refusal, at: nat) {
    predicate IsFailure() {
      Refused?
    }

    function PropagateFailure<U>(): Step<U>
      requires Refused?
    {
      Refused(error, at)
    }

    function Extract(): (T, nat)
      requires Got?
    {
      (value, at)
    }
  }

  function TakeAt(blob: seq<byte>, at: nat, count: nat): (s: Step<seq<byte>>)
    ensures s.Got? ==> |s.value| == count && at <= s.at <= |blob|
  {
    if at + count <= |blob| then Got(blob[at..at + count], at + count) else Refused(Truncated, at)
  }

  function WordAt(blob: seq<byte>, at: nat): Step<u32> {
    var (bytes, at) :- TakeAt(blob, at, 4);
    Got(Word(bytes), at)
  }

  function Padding(length: nat): (p: nat)
    ensures p < 4
  {
    (4 - length % 4) % 4
  }

  function DataAt(blob: seq<byte>, at: nat): Step<seq<byte>> {
    var (length, at) :- WordAt(blob, at);
    var (bytes, at) :- TakeAt(blob, at, length);
    var (_, at) :- TakeAt(blob, at, Padding(length));
    Got(bytes, at)
  }

  function ComparisonAt(blob: seq<byte>, at: nat): Step<Comparison> {
    var (code, at) :- WordAt(blob, at);
    if code == 0 then
      Got(Exists, at)
    else if code == 1 then
      var (data, at) :- DataAt(blob, at);
      Got(Equals(data), at)
    else if code == 14 then
      Got(OtherComparison, at)
    else if 2 <= code <= 8 then
      var (_, at) :- DataAt(blob, at);
      Got(OtherComparison, at)
    else if 9 <= code <= 13 then
      var (_, at) :- TakeAt(blob, at, 8);
      Got(OtherComparison, at)
    else
      Refused(UnknownComparison(code), at)
  }

  /** The clause a certificate opcode stands for, by its slot. */
  function CertificateClause(op: u32, slot: u32, field: seq<byte>, compared: Comparison): Clause {
    if op == 11 && slot == 0 then LeafField(field, compared)
    else if op == 14 && slot == 0 then LeafExtension(field, compared)
    else if op == 14 && slot == 1 then IntermediateExtension(field, compared)
    else Other
  }

  /** What follows an opcode that nests no clause. */
  function LeafAt(blob: seq<byte>, at: nat, op: u32): Step<Clause> {
    if op == 1 then
      Got(True, at)
    else if op == 2 then
      var (id, at) :- DataAt(blob, at);
      Got(Identifier(id), at)
    else if op == 8 then
      var (hash, at) :- DataAt(blob, at);
      Got(CdHash(hash), at)
    else if op == 11 || op == 14 || op == 17 || op == 22 then
      var (slot, at) :- WordAt(blob, at);
      var (field, at) :- DataAt(blob, at);
      var (compared, at) :- ComparisonAt(blob, at);
      Got(CertificateClause(op, slot, field, compared), at)
    else if op == 15 then
      Got(GenericAnchor, at)
    else if op == 0 || op == 3 || op == 13 || op == 21 || op == 23 then
      Got(Other, at)
    else if op == 12 || op == 20 then
      var (_, at) :- WordAt(blob, at);
      Got(Other, at)
    else if op == 18 || op == 19 then
      var (_, at) :- DataAt(blob, at);
      Got(Other, at)
    else if op == 4 then
      var (_, at) :- WordAt(blob, at);
      var (_, at) :- DataAt(blob, at);
      Got(Other, at)
    else if op == 5 then
      var (_, at) :- DataAt(blob, at);
      var (_, at) :- DataAt(blob, at);
      Got(Other, at)
    else if op == 10 || op == 16 then
      var (_, at) :- DataAt(blob, at);
      var (_, at) :- ComparisonAt(blob, at);
      Got(Other, at)
    else
      Refused(UnknownOpcode(op), at)
  }

  function ClauseAt(blob: seq<byte>, at: nat, depth: nat): Step<Clause>
    decreases MAX_DEPTH - depth
  {
    if depth >= MAX_DEPTH then Refused(TooDeep, at) else
    var (op, at) :- WordAt(blob, at);
    if op == 6 || op == 7 then
      var (left, at) :- ClauseAt(blob, at, depth + 1);
      var (right, at) :- ClauseAt(blob, at, depth + 1);
      Got(if op == 6 then And(left, right) else Or(left, right), at)
    else if op == 9 then
      var (negated, at) :- ClauseAt(blob, at, depth + 1);
      Got(Not(negated), at)
    else
      LeafAt(blob, at, op)
  }

  function ParsedStep(blob: seq<byte>): Step<Clause> {
    var (magic, at) :- WordAt(blob, 0);
    if magic != MAGIC then Refused(NotARequirement, at) else
    var (length, at) :- WordAt(blob, at);
    if length != |blob| then Refused(LengthDiffers, at) else
    var (form, at) :- WordAt(blob, at);
    if form != EXPRESSION_FORM then Refused(UnknownForm, at) else
    var (clause, at) :- ClauseAt(blob, at, 0);
    if at != |blob| then Refused(TrailingBytes, at) else
    Got(clause, at)
  }

  function Parsed(blob: seq<byte>): Result<Clause, Refusal> {
    match ParsedStep(blob)
    case Got(clause, _) => Ok(clause)
    case Refused(error, _) => Err(error)
  }

  /** A result together with the cursor that produced it. */
  function Outcome<T>(r: Result<T, Refusal>, at: nat): Step<T> {
    match r
    case Ok(value) => Got(value, at)
    case Err(error) => Refused(error, at)
  }

  class Reader {
    const blob: seq<byte>
    var at: nat

    ghost predicate Valid()
      reads this
    {
      at <= |blob|
    }

    constructor (blob: seq<byte>)
      ensures Valid() && this.blob == blob && at == 0
    {
      this.blob := blob;
      at := 0;
    }

    method Take(count: nat) returns (r: Result<seq<byte>, Refusal>)
      requires Valid()
      modifies this`at
      ensures Valid() && Outcome(r, at) == TakeAt(blob, old(at), count)
    {
      var end := at + count;
      if end > |blob| {
        return Err(Truncated);
      }
      r := Ok(blob[at..end]);
      at := end;
    }

    method Word() returns (r: Result<u32, Refusal>)
      requires Valid()
      modifies this`at
      ensures Valid() && Outcome(r, at) == WordAt(blob, old(at))
    {
      var bytes :- Take(4);
      return Ok(Basics.Word(bytes));
    }

    method Data() returns (r: Result<seq<byte>, Refusal>)
      requires Valid()
      modifies this`at
      ensures Valid() && Outcome(r, at) == DataAt(blob, old(at))
    {
      var length :- Word();
      var bytes :- Take(length);
      var _ :- Take((4 - length % 4) % 4);
      return Ok(bytes);
    }

    method Comparison() returns (r: Result<Comparison, Refusal>)
      requires Valid()
      modifies this`at
      ensures Valid() && Outcome(r, at) == ComparisonAt(blob, old(at))
    {
      var code :- Word();
      match code {
        case 0 =>
          return Ok(Exists);
        case 1 =>
          var data :- Data();
          return Ok(Equals(data));
        case 14 =>
          return Ok(OtherComparison);
        case other =>
          if 2 <= other <= 8 {
            var _ :- Data();
            return Ok(OtherComparison);
          } else if 9 <= other <= 13 {
            var _ :- Take(8);
            return Ok(OtherComparison);
          }
          return Err(UnknownComparison(other));
      }
    }

    method Leaf(op: u32) returns (r: Result<Clause, Refusal>)
      requires Valid()
      modifies this`at
      ensures Valid() && Outcome(r, at) == LeafAt(blob, old(at), op)
    {
      match op {
        case 1 =>
          return Ok(True);
        case 2 =>
          var id :- Data();
          return Ok(Identifier(id));
        case 8 =>
          var hash :- Data();
          return Ok(CdHash(hash));
        case 11 | 14 | 17 | 22 =>
          var slot :- Word();
          var field :- Data();
          var compared :- Comparison();
          return Ok(CertificateClause(op, slot, field, compared));
        case 15 =>
          return Ok(GenericAnchor);
        case 0 | 3 | 13 | 21 | 23 =>
          return Ok(Other);
        case 12 | 20 =>
          var _ :- Word();
          return Ok(Other);
        case 18 | 19 =>
          var _ :- Data();
          return Ok(Other);
        case 4 =>
          var _ :- Word();
          var _ :- Data();
          return Ok(Other);
        case 5 =>
          var _ :- Data();
          var _ :- Data();
          return Ok(Other);
        case 10 | 16 =>
          var _ :- Data();
          var _ :- Comparison();
          return Ok(Other);
        case _ =>
          return Err(UnknownOpcode(op));
      }
    }

    method Boxed(depth: nat) returns (r: Result<Clause, Refusal>)
      requires Valid() && depth < MAX_DEPTH
      modifies this`at
      ensures Valid() && Outcome(r, at) == ClauseAt(blob, old(at), depth + 1)
      decreases MAX_DEPTH - depth, 0
    {
      r := Clause(depth + 1);
    }

    method Clause(depth: nat) returns (r: Result<Clause, Refusal>)
      requires Valid()
      modifies this`at
      ensures Valid() && Outcome(r, at) == ClauseAt(blob, old(at), depth)
      decreases MAX_DEPTH - depth, 1
    {
      if depth >= MAX_DEPTH {
        return Err(TooDeep);
      }
      var op :- Word();
      match op {
        case 6 =>
          var left :- Boxed(depth);
          var right :- Boxed(depth);
          return Ok(And(left, right));
        case 7 =>
          var left :- Boxed(depth);
          var right :- Boxed(depth);
          return Ok(Or(left, right));
        case 9 =>
          var negated :- Boxed(depth);
          return Ok(Not(negated));
        case _ =>
          r := Leaf(op);
      }
    }
  }

  method Parse(blob: seq<byte>) returns (r: Result<Clause, Refusal>)
    ensures r == Parsed(blob)
  {
    var reader := new Reader(blob);
    var magic :- reader.Word();
    if magic != MAGIC {
      return Err(NotARequirement);
    }
    var length :- reader.Word();
    if length != |blob| {
      return Err(LengthDiffers);
    }
    var form :- reader.Word();
    if form != EXPRESSION_FORM {
      return Err(UnknownForm);
    }
    var clause :- reader.Clause(0);
    if reader.at != |blob| {
      return Err(TrailingBytes);
    }
    return Ok(clause);
  }
}
