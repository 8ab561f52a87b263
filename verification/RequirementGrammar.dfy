/** The language of compiled requirements, written as a concrete syntax with a
    writer, independently of the parser. The parser accepts exactly the blobs
    that the writer produces from an expression of at most 64 levels, and
    returns that expression's clause. Everything else the parser promises for
    arbitrary bytes follows from this. */
module RequirementGrammar {
  import opened Basics
  import opened RequirementBlob

  /** A length-prefixed string, with the bytes that fill it up to a multiple of
      four. The parser does not look at the filling. */
  datatype Padded = Padded(bytes: seq<byte>, fill: seq<byte>) {
    predicate Valid() {
      |bytes| < 0x1_0000_0000 && |fill| == Padding(|bytes|)
    }

    function Bytes(): (b: seq<byte>)
      requires Valid()
      ensures |b| >= 4
    {
      BigEndian(|bytes|) + bytes + fill
    }
  }

  /** How a field is compared: 0 and 14 carry nothing, 1 to 8 a string, 9 to 13
      an eight-byte date. */
  datatype Test = Presence | Absence | Against(code: u32, data: Padded) | OnDate(code: u32, date: seq<byte>) {
    predicate Valid() {
      match this
      case Presence | Absence => true
      case Against(code, data) => 1 <= code <= 8 && data.Valid()
      case OnDate(code, date) => 9 <= code <= 13 && |date| == 8
    }

    function Bytes(): (b: seq<byte>)
      requires Valid()
      ensures |b| >= 4
    {
      match this
      case Presence => BigEndian(0)
      case Absence => BigEndian(14)
      case Against(code, data) => BigEndian(code) + data.Bytes()
      case OnDate(code, date) => BigEndian(code) + date
    }

    function Meaning(): Comparison {
      match this
      case Presence => Exists
      case Against(code, data) => if code == 1 then Equals(data.bytes) else OtherComparison
      case _ => OtherComparison
    }
  }

  datatype Expression =
    | Bare(code: u32)
    | WithWord(code: u32, word: u32)
    | WithData(code: u32, data: Padded)
    | WithWordAndData(word: u32, data: Padded)
    | WithTwoData(data: Padded, second: Padded)
    | WithTest(code: u32, data: Padded, test: Test)
    | OnCertificate(code: u32, slot: u32, data: Padded, test: Test)
    | Binary(code: u32, left: Expression, right: Expression)
    | Negation(negated: Expression)
  {
    function Opcode(): u32 {
      match this
      case WithWordAndData(_, _) => 4
      case WithTwoData(_, _) => 5
      case Negation(_) => 9
      case Bare(_) | WithWord(_, _) | WithData(_, _) | WithTest(_, _, _) | OnCertificate(_, _, _, _) | Binary(_, _, _) => code
    }

    predicate Nested() {
      Binary? || Negation?
    }

    predicate Valid() {
      match this
      case Bare(code) => code in {0, 1, 3, 13, 15, 21, 23}
      case WithWord(code, _) => code in {12, 20}
      case WithData(code, data) => code in {2, 8, 18, 19} && data.Valid()
      case WithWordAndData(_, data) => data.Valid()
      case WithTwoData(data, second) => data.Valid() && second.Valid()
      case WithTest(code, data, test) => code in {10, 16} && data.Valid() && test.Valid()
      case OnCertificate(code, _, data, test) => code in {11, 14, 17, 22} && data.Valid() && test.Valid()
      case Binary(code, left, right) => code in {6, 7} && left.Valid() && right.Valid()
      case Negation(negated) => negated.Valid()
    }

    /** What follows the opcode. */
    function Operands(): seq<byte>
      requires Valid()
      decreases this, 0
    {
      match this
      case Bare(_) => []
      case WithWord(_, word) => BigEndian(word)
      case WithData(_, data) => data.Bytes()
      case WithWordAndData(word, data) => BigEndian(word) + data.Bytes()
      case WithTwoData(data, second) => data.Bytes() + second.Bytes()
      case WithTest(_, data, test) => data.Bytes() + test.Bytes()
      case OnCertificate(_, slot, data, test) => BigEndian(slot) + (data.Bytes() + test.Bytes())
      case Binary(_, left, right) => left.Bytes() + right.Bytes()
      case Negation(negated) => negated.Bytes()
    }

    function Bytes(): (b: seq<byte>)
      requires Valid()
      ensures |b| >= 4
      decreases this, 1
    {
      BigEndian(Opcode()) + Operands()
    }

    function Meaning(): Clause
      requires Valid()
    {
      match this
      case Bare(code) => if code == 1 then True else if code == 15 then GenericAnchor else Other
      case WithData(code, data) =>
        if code == 2 then Identifier(data.bytes) else if code == 8 then CdHash(data.bytes) else Other
      case OnCertificate(code, slot, data, test) =>
        if code == 11 then (if slot == 0 then LeafField(data.bytes, test.Meaning()) else Other)
        else if code != 14 then Other
        else if slot == 0 then LeafExtension(data.bytes, test.Meaning())
        else if slot == 1 then IntermediateExtension(data.bytes, test.Meaning())
        else Other
      case Binary(code, left, right) =>
        if code == 6 then And(left.Meaning(), right.Meaning()) else Or(left.Meaning(), right.Meaning())
      case Negation(negated) => Not(negated.Meaning())
      case WithWord(_, _) | WithWordAndData(_, _) | WithTwoData(_, _) | WithTest(_, _, _) => Other
    }

    function Levels(): nat {
      match this
      case Binary(_, left, right) => 1 + Max(left.Levels(), right.Levels())
      case Negation(negated) => 1 + negated.Levels()
      case _ => 1
    }
  }

  function Levels(c: Clause): nat {
    match c
    case And(left, right) => 1 + Max(Levels(left), Levels(right))
    case Or(left, right) => 1 + Max(Levels(left), Levels(right))
    case Not(negated) => 1 + Levels(negated)
    case _ => 1
  }

  function Nodes(c: Clause): nat {
    match c
    case And(left, right) => 1 + Nodes(left) + Nodes(right)
    case Or(left, right) => 1 + Nodes(left) + Nodes(right)
    case Not(negated) => 1 + Nodes(negated)
    case _ => 1
  }

  /** `text` is what the blob holds from `at` on. */
  predicate HoldsAt(blob: seq<byte>, at: nat, text: seq<byte>) {
    at + |text| <= |blob| && blob[at..at + |text|] == text
  }

  lemma HoldsInside(blob: seq<byte>, at: nat, text: seq<byte>)
    requires HoldsAt(blob, at, text)
    ensures at + |text| <= |blob|
  {
  }

  lemma HoldsBoth(blob: seq<byte>, at: nat, a: seq<byte>, b: seq<byte>)
    ensures HoldsAt(blob, at, a + b) <==> HoldsAt(blob, at, a) && HoldsAt(blob, at + |a|, b)
  {
    if at + |a| + |b| <= |blob| {
      var all := blob[at..at + |a + b|];
      assert all[..|a|] == blob[at..at + |a|];
      assert all[|a|..] == blob[at + |a|..at + |a| + |b|];
      assert (a + b)[..|a|] == a && (a + b)[|a|..] == b;
      assert all == all[..|a|] + all[|a|..];
    }
  }

  /** Which certificate tests mean what, slot by slot: only opcode 11 on the leaf
      is a field of it, only opcode 14 on the leaf or on the first certificate
      above it is an extension, and every other is opaque. */
  lemma CertificateMeans(e: Expression)
    requires e.OnCertificate? && e.Valid()
    ensures e.Meaning() == LeafField(e.data.bytes, e.test.Meaning()) <==> e.code == 11 && e.slot == 0
    ensures e.Meaning() == LeafExtension(e.data.bytes, e.test.Meaning()) <==> e.code == 14 && e.slot == 0
    ensures e.Meaning() == IntermediateExtension(e.data.bytes, e.test.Meaning()) <==> e.code == 14 && e.slot == 1
    ensures e.Meaning() == Other <==>
              !(e.code == 11 && e.slot == 0) && !(e.code == 14 && (e.slot == 0 || e.slot == 1))
    ensures e.Meaning() in {LeafField(e.data.bytes, e.test.Meaning()), LeafExtension(e.data.bytes, e.test.Meaning()),
                            IntermediateExtension(e.data.bytes, e.test.Meaning()), Other}
  {
  }

  // What the writer wrote, the parser reads back.

  lemma WordReads(blob: seq<byte>, at: nat, w: u32, rest: seq<byte>)
    requires HoldsAt(blob, at, BigEndian(w) + rest)
    ensures WordAt(blob, at) == Got(w, at + 4) && HoldsAt(blob, at + 4, rest)
  {
    HoldsBoth(blob, at, BigEndian(w), rest);
    WordOfBigEndian(w);
  }

  lemma DataReads(blob: seq<byte>, at: nat, d: Padded, rest: seq<byte>)
    requires d.Valid() && HoldsAt(blob, at, d.Bytes() + rest)
    ensures DataAt(blob, at) == Got(d.bytes, at + |d.Bytes()|) && HoldsAt(blob, at + |d.Bytes()|, rest)
  {
    HoldsBoth(blob, at, d.Bytes(), rest);
    HoldsBoth(blob, at, BigEndian(|d.bytes|) + d.bytes, d.fill);
    WordReads(blob, at, |d.bytes|, d.bytes);
  }

  lemma TestReads(blob: seq<byte>, at: nat, t: Test)
    requires t.Valid() && HoldsAt(blob, at, t.Bytes())
    ensures ComparisonAt(blob, at) == Got(t.Meaning(), at + |t.Bytes()|)
  {
    hide HoldsAt, WordAt, DataAt, BigEndian, Padding;
    match t
    case Presence =>
      assert t.Bytes() == BigEndian(0) + [];
      WordReads(blob, at, 0, []);
    case Absence =>
      assert t.Bytes() == BigEndian(14) + [];
      WordReads(blob, at, 14, []);
    case Against(code, data) =>
      WordReads(blob, at, code, data.Bytes());
      assert data.Bytes() + [] == data.Bytes();
      DataReads(blob, at + 4, data, []);
    case OnDate(code, date) =>
      WordReads(blob, at, code, date);
      HoldsInside(blob, at + 4, date);
  }

  lemma LastDataReads(blob: seq<byte>, at: nat, d: Padded)
    requires d.Valid() && HoldsAt(blob, at, d.Bytes())
    ensures DataAt(blob, at) == Got(d.bytes, at + |d.Bytes()|)
  {
    assert d.Bytes() + [] == d.Bytes();
    DataReads(blob, at, d, []);
  }

  lemma DataAndTestRead(blob: seq<byte>, at: nat, d: Padded, t: Test)
    requires d.Valid() && t.Valid() && HoldsAt(blob, at, d.Bytes() + t.Bytes())
    ensures DataAt(blob, at) == Got(d.bytes, at + |d.Bytes()|)
    ensures ComparisonAt(blob, at + |d.Bytes()|) == Got(t.Meaning(), at + |d.Bytes() + t.Bytes()|)
  {
    DataReads(blob, at, d, t.Bytes());
    TestReads(blob, at + |d.Bytes()|, t);
  }

  lemma CertificateReads(blob: seq<byte>, at: nat, e: Expression)
    requires e.OnCertificate? && e.Valid() && HoldsAt(blob, at, e.Operands())
    ensures LeafAt(blob, at, e.code) == Got(e.Meaning(), at + |e.Operands()|)
  {
    hide HoldsAt, Padding, WordAt, DataAt, ComparisonAt, TakeAt, BigEndian;
    WordReads(blob, at, e.slot, e.data.Bytes() + e.test.Bytes());
    DataAndTestRead(blob, at + 4, e.data, e.test);
  }

  lemma LeafReads(e: Expression, blob: seq<byte>, at: nat)
    requires e.Valid() && !e.Nested() && HoldsAt(blob, at, e.Operands())
    ensures LeafAt(blob, at, e.Opcode()) == Got(e.Meaning(), at + |e.Operands()|)
  {
    hide HoldsAt, Padding, WordAt, DataAt, ComparisonAt, TakeAt, BigEndian;
    match e {
      case Bare(_) =>
      case WithWord(_, word) =>
        assert e.Operands() == BigEndian(word) + [];
        WordReads(blob, at, word, []);
      case WithData(_, data) =>
        LastDataReads(blob, at, data);
      case WithWordAndData(word, data) =>
        WordReads(blob, at, word, data.Bytes());
        LastDataReads(blob, at + 4, data);
      case WithTwoData(data, second) =>
        DataReads(blob, at, data, second.Bytes());
        LastDataReads(blob, at + |data.Bytes()|, second);
      case WithTest(_, data, test) =>
        DataAndTestRead(blob, at, data, test);
      case OnCertificate(_, _, _, _) =>
        CertificateReads(blob, at, e);
    }
  }

  ghost predicate IsTooDeep(s: Step<Clause>) {
    s.Refused? && s.error == TooDeep
  }

  /** What reading a written expression must give at a depth. */
  ghost predicate ReadsAs(e: Expression, blob: seq<byte>, at: nat, depth: nat)
    requires e.Valid()
  {
    if depth + e.Levels() <= MAX_DEPTH then ClauseAt(blob, at, depth) == Got(e.Meaning(), at + |e.Bytes()|)
    else IsTooDeep(ClauseAt(blob, at, depth))
  }

  lemma ClauseAtNested(blob: seq<byte>, at: nat, depth: nat, op: u32)
    requires depth < MAX_DEPTH && WordAt(blob, at) == Got(op, at + 4)
    ensures op == 9 ==> ClauseAt(blob, at, depth) ==
                        match ClauseAt(blob, at + 4, depth + 1)
                        case Refused(error, end) => Refused(error, end)
                        case Got(negated, end) => Got(Not(negated), end)
    ensures op in {6, 7} ==> ClauseAt(blob, at, depth) ==
                             match ClauseAt(blob, at + 4, depth + 1)
                             case Refused(error, end) => Refused(error, end)
                             case Got(left, middle) =>
                               match ClauseAt(blob, middle, depth + 1)
                               case Refused(error, end) => Refused(error, end)
                               case Got(right, end) => Got(if op == 6 then And(left, right) else Or(left, right), end)
    ensures op !in {6, 7, 9} ==> ClauseAt(blob, at, depth) == LeafAt(blob, at + 4, op)
  {
    hide WordAt, LeafAt;
  }

  lemma NestedMeasures(e: Expression)
    requires e.Valid()
    ensures e.Negation? ==> && |e.Bytes()| == 4 + |e.negated.Bytes()| && e.Levels() == 1 + e.negated.Levels()
                            && e.Meaning() == Not(e.negated.Meaning())
    ensures e.Binary? ==> && |e.Bytes()| == 4 + |e.left.Bytes()| + |e.right.Bytes()|
                          && e.Levels() == 1 + Max(e.left.Levels(), e.right.Levels())
                          && e.Meaning() == if e.code == 6 then And(e.left.Meaning(), e.right.Meaning())
                                            else Or(e.left.Meaning(), e.right.Meaning())
    ensures !e.Nested() ==> |e.Bytes()| == 4 + |e.Operands()| && e.Levels() == 1
  {
    hide BigEndian;
  }

  lemma NegationReads(e: Expression, blob: seq<byte>, at: nat, depth: nat)
    requires e.Negation? && e.Valid() && depth < MAX_DEPTH
    requires WordAt(blob, at) == Got(9, at + 4) && ReadsAs(e.negated, blob, at + 4, depth + 1)
    ensures ReadsAs(e, blob, at, depth)
  {
    hide WordAt, LeafAt, ClauseAt, BigEndian;
    ClauseAtNested(blob, at, depth, 9);
    NestedMeasures(e);
  }

  lemma BinaryReads(e: Expression, blob: seq<byte>, at: nat, depth: nat)
    requires e.Binary? && e.Valid() && depth < MAX_DEPTH
    requires WordAt(blob, at) == Got(e.code, at + 4) && ReadsAs(e.left, blob, at + 4, depth + 1)
    requires ReadsAs(e.right, blob, at + 4 + |e.left.Bytes()|, depth + 1)
    ensures ReadsAs(e, blob, at, depth)
  {
    hide WordAt, LeafAt, ClauseAt, BigEndian;
    ClauseAtNested(blob, at, depth, e.code);
    NestedMeasures(e);
  }

  lemma LeafClauseReads(e: Expression, blob: seq<byte>, at: nat, depth: nat)
    requires !e.Nested() && e.Valid() && depth < MAX_DEPTH
    requires WordAt(blob, at) == Got(e.Opcode(), at + 4) && HoldsAt(blob, at + 4, e.Operands())
    ensures ReadsAs(e, blob, at, depth)
  {
    hide WordAt, LeafAt, ClauseAt, BigEndian, HoldsAt;
    ClauseAtNested(blob, at, depth, e.Opcode());
    NestedMeasures(e);
    LeafReads(e, blob, at + 4);
  }

  lemma TooDeepToRead(e: Expression, blob: seq<byte>, at: nat, depth: nat)
    requires e.Valid() && depth >= MAX_DEPTH
    ensures ReadsAs(e, blob, at, depth)
  {
  }

  /** A written expression is read back whole when it fits in the levels left,
      and refused for its depth when it does not. */
  lemma {:induction false} ClauseReads(e: Expression, blob: seq<byte>, at: nat, depth: nat)
    requires e.Valid() && HoldsAt(blob, at, e.Bytes())
    ensures ReadsAs(e, blob, at, depth)
    decreases e
  {
    hide WordAt, LeafAt, ClauseAt, BigEndian, HoldsAt, ReadsAs;
    if depth >= MAX_DEPTH {
      TooDeepToRead(e, blob, at, depth);
    } else {
      WordReads(blob, at, e.Opcode(), e.Operands());
      match e {
        case Binary(_, left, right) =>
          HoldsBoth(blob, at + 4, left.Bytes(), right.Bytes());
          ClauseReads(left, blob, at + 4, depth + 1);
          ClauseReads(right, blob, at + 4 + |left.Bytes()|, depth + 1);
          BinaryReads(e, blob, at, depth);
        case Negation(negated) =>
          ClauseReads(negated, blob, at + 4, depth + 1);
          NegationReads(e, blob, at, depth);
        case _ =>
          LeafClauseReads(e, blob, at, depth);
      }
    }
  }

  // Whatever the parser reads, the writer can write.

  lemma WordWritten(blob: seq<byte>, at: nat)
    requires WordAt(blob, at).Got?
    ensures HoldsAt(blob, at, BigEndian(WordAt(blob, at).value)) && WordAt(blob, at).at == at + 4
  {
    BigEndianOfWord(blob[at..at + 4]);
  }

  lemma DataWritten(blob: seq<byte>, at: nat) returns (d: Padded)
    requires DataAt(blob, at).Got?
    ensures d.Valid() && HoldsAt(blob, at, d.Bytes()) && DataAt(blob, at) == Got(d.bytes, at + |d.Bytes()|)
  {
    WordWritten(blob, at);
    var length := WordAt(blob, at).value;
    var end := at + 4 + length;
    d := Padded(blob[at + 4..end], blob[end..end + Padding(length)]);
    HoldsBoth(blob, at, BigEndian(length), d.bytes);
    HoldsBoth(blob, at, BigEndian(length) + d.bytes, d.fill);
  }

  lemma HeldAsIs(blob: seq<byte>, from: nat, to: nat)
    requires from <= to <= |blob|
    ensures HoldsAt(blob, from, blob[from..to])
  {
  }

  lemma TestWritten(blob: seq<byte>, at: nat) returns (t: Test)
    requires ComparisonAt(blob, at).Got?
    ensures t.Valid() && HoldsAt(blob, at, t.Bytes()) && ComparisonAt(blob, at) == Got(t.Meaning(), at + |t.Bytes()|)
  {
    hide WordAt, DataAt, HoldsAt, BigEndian, Padding;
    WordWritten(blob, at);
    var code := WordAt(blob, at).value;
    if code == 0 {
      t := Presence;
    } else if code == 14 {
      t := Absence;
    } else if code <= 8 {
      var d := DataWritten(blob, at + 4);
      t := Against(code, d);
      HoldsBoth(blob, at, BigEndian(code), d.Bytes());
    } else {
      t := OnDate(code, blob[at + 4..at + 12]);
      HeldAsIs(blob, at + 4, at + 12);
      HoldsBoth(blob, at, BigEndian(code), t.date);
    }
  }

  lemma DataAndTestWritten(blob: seq<byte>, at: nat) returns (d: Padded, t: Test)
    requires DataAt(blob, at).Got? && ComparisonAt(blob, DataAt(blob, at).at).Got?
    ensures d.Valid() && t.Valid() && HoldsAt(blob, at, d.Bytes() + t.Bytes())
    ensures DataAt(blob, at) == Got(d.bytes, at + |d.Bytes()|)
    ensures ComparisonAt(blob, at + |d.Bytes()|) == Got(t.Meaning(), at + |d.Bytes() + t.Bytes()|)
  {
    hide WordAt, DataAt, ComparisonAt, TakeAt, BigEndian;
    d := DataWritten(blob, at);
    t := TestWritten(blob, at + |d.Bytes()|);
    HoldsBoth(blob, at, d.Bytes(), t.Bytes());
  }

  lemma CertificateWritten(blob: seq<byte>, at: nat, op: u32) returns (e: Expression)
    requires op in {11, 14, 17, 22} && LeafAt(blob, at, op).Got?
    ensures e.Valid() && !e.Nested() && e.Opcode() == op && HoldsAt(blob, at, e.Operands())
    ensures LeafAt(blob, at, op) == Got(e.Meaning(), at + |e.Operands()|)
  {
    hide WordAt, DataAt, ComparisonAt, TakeAt, BigEndian;
    WordWritten(blob, at);
    var d, t := DataAndTestWritten(blob, at + 4);
    e := OnCertificate(op, WordAt(blob, at).value, d, t);
    HoldsBoth(blob, at, BigEndian(e.slot), d.Bytes() + t.Bytes());
  }

  lemma PairWritten(blob: seq<byte>, at: nat, op: u32) returns (e: Expression)
    requires op in {4, 5, 10, 16} && LeafAt(blob, at, op).Got?
    ensures e.Valid() && !e.Nested() && e.Opcode() == op && HoldsAt(blob, at, e.Operands())
    ensures LeafAt(blob, at, op) == Got(e.Meaning(), at + |e.Operands()|)
  {
    hide WordAt, DataAt, ComparisonAt, TakeAt, BigEndian;
    if op == 4 {
      WordWritten(blob, at);
      var d := DataWritten(blob, at + 4);
      e := WithWordAndData(WordAt(blob, at).value, d);
      HoldsBoth(blob, at, BigEndian(e.word), d.Bytes());
    } else if op == 5 {
      var d := DataWritten(blob, at);
      var second := DataWritten(blob, at + |d.Bytes()|);
      e := WithTwoData(d, second);
      HoldsBoth(blob, at, d.Bytes(), second.Bytes());
    } else {
      var d, t := DataAndTestWritten(blob, at);
      e := WithTest(op, d, t);
    }
  }

  lemma LeafWritten(blob: seq<byte>, at: nat, op: u32) returns (e: Expression)
    requires op !in {6, 7, 9} && at <= |blob| && LeafAt(blob, at, op).Got?
    ensures e.Valid() && !e.Nested() && e.Opcode() == op && HoldsAt(blob, at, e.Operands())
    ensures LeafAt(blob, at, op) == Got(e.Meaning(), at + |e.Operands()|)
  {
    hide Padding, WordAt, DataAt, ComparisonAt, TakeAt, BigEndian;
    if op in {0, 1, 3, 13, 15, 21, 23} {
      e := Bare(op);
    } else if op in {12, 20} {
      WordWritten(blob, at);
      e := WithWord(op, WordAt(blob, at).value);
    } else if op in {2, 8, 18, 19} {
      var d := DataWritten(blob, at);
      e := WithData(op, d);
    } else if op in {4, 5, 10, 16} {
      e := PairWritten(blob, at, op);
    } else {
      e := CertificateWritten(blob, at, op);
    }
  }

  lemma NestedWritten(blob: seq<byte>, at: nat, depth: nat, e: Expression)
    requires e.Nested() && e.Valid() && depth < MAX_DEPTH && WordAt(blob, at) == Got(e.Opcode(), at + 4)
    requires HoldsAt(blob, at, BigEndian(e.Opcode())) && HoldsAt(blob, at + 4, e.Operands())
    requires e.Negation? ==> ReadsAs(e.negated, blob, at + 4, depth + 1)
    requires e.Binary? ==> && ReadsAs(e.left, blob, at + 4, depth + 1)
                           && ReadsAs(e.right, blob, at + 4 + |e.left.Bytes()|, depth + 1)
    ensures ReadsAs(e, blob, at, depth) && HoldsAt(blob, at, e.Bytes())
  {
    hide HoldsAt, WordAt, ReadsAs, BigEndian;
    HoldsBoth(blob, at, BigEndian(e.Opcode()), e.Operands());
    if e.Negation? {
      NegationReads(e, blob, at, depth);
    } else {
      BinaryReads(e, blob, at, depth);
    }
  }

  /** The descent reads nothing but what is written. */
  lemma {:induction false} ClauseWritten(blob: seq<byte>, at: nat, depth: nat) returns (e: Expression)
    requires ClauseAt(blob, at, depth).Got?
    ensures e.Valid() && depth + e.Levels() <= MAX_DEPTH && HoldsAt(blob, at, e.Bytes())
    ensures ClauseAt(blob, at, depth) == Got(e.Meaning(), at + |e.Bytes()|)
    decreases MAX_DEPTH - depth
  {
    hide HoldsAt, Padding, WordAt, DataAt, ComparisonAt, LeafAt, TakeAt, BigEndian;
    WordWritten(blob, at);
    var op := WordAt(blob, at).value;
    if op == 6 || op == 7 {
      var left := ClauseWritten(blob, at + 4, depth + 1);
      var right := ClauseWritten(blob, at + 4 + |left.Bytes()|, depth + 1);
      e := Binary(op, left, right);
      HoldsBoth(blob, at + 4, left.Bytes(), right.Bytes());
      NestedWritten(blob, at, depth, e);
    } else if op == 9 {
      var negated := ClauseWritten(blob, at + 4, depth + 1);
      e := Negation(negated);
      NestedWritten(blob, at, depth, e);
    } else {
      e := LeafWritten(blob, at + 4, op);
      HoldsBoth(blob, at, BigEndian(op), e.Operands());
    }
  }

  // The whole blob.

  function Length(e: Expression): nat
    requires e.Valid()
  {
    12 + |e.Bytes()|
  }

  function Written(e: Expression): (b: seq<byte>)
    requires e.Valid() && Length(e) < 0x1_0000_0000
    ensures |b| == Length(e)
  {
    BigEndian(MAGIC) + (BigEndian(Length(e)) + (BigEndian(EXPRESSION_FORM) + e.Bytes()))
  }

  ghost predicate Spells(blob: seq<byte>, e: Expression) {
    e.Valid() && Length(e) < 0x1_0000_0000 && blob == Written(e)
  }

  lemma WrittenParses(e: Expression)
    requires e.Valid() && Length(e) < 0x1_0000_0000
    ensures e.Levels() <= MAX_DEPTH ==> Parsed(Written(e)) == Ok(e.Meaning())
    ensures e.Levels() > MAX_DEPTH ==> Parsed(Written(e)) == Err(TooDeep)
  {
    var blob := Written(e);
    WordReads(blob, 0, MAGIC, BigEndian(Length(e)) + (BigEndian(EXPRESSION_FORM) + e.Bytes()));
    WordReads(blob, 4, Length(e), BigEndian(EXPRESSION_FORM) + e.Bytes());
    WordReads(blob, 8, EXPRESSION_FORM, e.Bytes());
    ClauseReads(e, blob, 12, 0);
  }

  lemma ParsedWasWritten(blob: seq<byte>) returns (e: Expression)
    requires Parsed(blob).Ok?
    ensures Spells(blob, e) && e.Levels() <= MAX_DEPTH && Parsed(blob) == Ok(e.Meaning())
  {
    WordWritten(blob, 0);
    WordWritten(blob, 4);
    WordWritten(blob, 8);
    e := ClauseWritten(blob, 12, 0);
    HoldsBoth(blob, 8, BigEndian(EXPRESSION_FORM), e.Bytes());
    HoldsBoth(blob, 4, BigEndian(|blob|), BigEndian(EXPRESSION_FORM) + e.Bytes());
    HoldsBoth(blob, 0, BigEndian(MAGIC), BigEndian(|blob|) + (BigEndian(EXPRESSION_FORM) + e.Bytes()));
  }

  /** The parser accepts a blob, with a clause, exactly when the blob spells an
      expression of at most 64 levels that means that clause. */
  lemma ParserIsExact(blob: seq<byte>, c: Clause)
    ensures Parsed(blob) == Ok(c) <==>
            exists e :: Spells(blob, e) && e.Levels() <= 64 && e.Meaning() == c
  {
    if Parsed(blob) == Ok(c) {
      var e := ParsedWasWritten(blob);
    }
    forall e | Spells(blob, e) && e.Levels() <= 64 && e.Meaning() == c
      ensures Parsed(blob) == Ok(c)
    {
      WrittenParses(e);
    }
  }

  /** What the first bytes of an accepted blob are. */
  lemma AcceptedBlobStarts(blob: seq<byte>)
    requires Parsed(blob).Ok?
    ensures |blob| >= 16 && blob[..4] == [0xfa, 0xde, 0x0c, 0x00] && blob[8..12] == [0, 0, 0, 1]
    ensures |blob| < 0x1_0000_0000 && blob[4..8] == BigEndian(|blob|)
    ensures |blob| < 0x100 ==> blob[4..8] == [0, 0, 0, |blob|]
  {
    var e := ParsedWasWritten(blob);
    WrittenStarts(e);
    if |blob| < 0x100 {
      SmallNumberComesLast(|blob|);
    }
  }

  lemma WrittenStarts(e: Expression)
    requires e.Valid() && Length(e) < 0x1_0000_0000
    ensures var blob := Written(e);
            && |blob| >= 16 && blob[..4] == [0xfa, 0xde, 0x0c, 0x00]
            && blob[4..8] == BigEndian(Length(e)) && blob[8..12] == [0, 0, 0, 1]
  {
    assert BigEndian(MAGIC) == [0xfa, 0xde, 0x0c, 0x00] && BigEndian(EXPRESSION_FORM) == [0, 0, 0, 1];
  }

  // Why a blob is refused.

  /** A header of any three words, and what follows it. */
  function Headed(magic: u32, length: u32, form: u32, rest: seq<byte>): seq<byte> {
    BigEndian(magic) + (BigEndian(length) + (BigEndian(form) + rest))
  }

  /** The header is checked word by word; only behind a good one is an expression
      read. */
  lemma HeaderTellsWhy(magic: u32, length: u32, form: u32, rest: seq<byte>)
    ensures var blob := Headed(magic, length, form, rest);
            && (Parsed(blob) == Err(NotARequirement) <==> magic != 0xfade0c00)
            && (Parsed(blob) == Err(LengthDiffers) <==> magic == 0xfade0c00 && length != 12 + |rest|)
            && (Parsed(blob) == Err(UnknownForm) <==> magic == 0xfade0c00 && length == 12 + |rest| && form != 1)
  {
    hide ClauseAt, BigEndian, WordAt, HoldsAt;
    var blob := Headed(magic, length, form, rest);
    assert |blob| == 12 + |rest|;
    HeaderReads(magic, length, form, rest);
    ClauseRefusals(blob, 12, 0);
  }

  lemma {:induction false} ClauseRefusals(blob: seq<byte>, at: nat, depth: nat)
    ensures var s := ClauseAt(blob, at, depth);
            s.Refused? ==> s.error.Truncated? || s.error.TooDeep? || s.error.UnknownComparison? || s.error.UnknownOpcode?
    decreases MAX_DEPTH - depth
  {
    hide LeafAt, WordAt;
    LeafRefusals(blob, at);
    if depth < MAX_DEPTH && WordAt(blob, at).Got? && WordAt(blob, at).value in {6, 7, 9} {
      var next := WordAt(blob, at).at;
      ClauseRefusals(blob, next, depth + 1);
      if ClauseAt(blob, next, depth + 1).Got? {
        ClauseRefusals(blob, ClauseAt(blob, next, depth + 1).at, depth + 1);
      }
    }
  }

  lemma LeafRefusals(blob: seq<byte>, at: nat)
    ensures WordAt(blob, at).Refused? ==> WordAt(blob, at).error == Truncated
    ensures WordAt(blob, at).Got? ==>
              var s := LeafAt(blob, WordAt(blob, at).at, WordAt(blob, at).value);
              s.Refused? ==> s.error.Truncated? || s.error.UnknownComparison? || s.error.UnknownOpcode?
  {
    hide TakeAt, Word, Padding;
    TakeRefusals();
  }

  lemma TakeRefusals()
    ensures forall blob, at, count: nat :: TakeAt(blob, at, count).Refused? ==> TakeAt(blob, at, count).error == Truncated
  {
  }

  /** Bytes behind a whole expression are refused as such. */
  lemma TrailingBytesAreRefused(e: Expression, junk: seq<byte>)
    requires e.Valid() && e.Levels() <= MAX_DEPTH && junk != [] && Length(e) + |junk| < 0x1_0000_0000
    ensures Parsed(Headed(MAGIC, Length(e) + |junk|, EXPRESSION_FORM, e.Bytes() + junk)) == Err(TrailingBytes)
  {
    hide ClauseAt, BigEndian, WordAt;
    var rest := e.Bytes() + junk;
    var length := Length(e) + |junk|;
    var blob := Headed(MAGIC, length, EXPRESSION_FORM, rest);
    HeaderReads(MAGIC, length, EXPRESSION_FORM, rest);
    HoldsBoth(blob, 12, e.Bytes(), junk);
    ClauseReads(e, blob, 12, 0);
  }

  /** An opcode the format does not have is named in the refusal. */
  lemma UnknownOpcodeIsNamed(op: u32, rest: seq<byte>, length: u32)
    requires op > 23 && length == 16 + |rest|
    ensures Parsed(Headed(MAGIC, length, EXPRESSION_FORM, BigEndian(op) + rest)) == Err(UnknownOpcode(op))
  {
    hide BigEndian, WordAt;
    var blob := Headed(MAGIC, length, EXPRESSION_FORM, BigEndian(op) + rest);
    HeaderReads(MAGIC, length, EXPRESSION_FORM, BigEndian(op) + rest);
    WordReads(blob, 12, op, rest);
  }

  /** So is a comparison that it does not have. */
  lemma UnknownComparisonIsNamed(op: u32, slot: u32, data: Padded, code: u32, rest: seq<byte>, length: u32)
    requires op in {11, 14, 17, 22} && data.Valid() && code > 14
    requires length == 24 + |data.Bytes()| + |rest|
    ensures var expression := BigEndian(op) + (BigEndian(slot) + (data.Bytes() + (BigEndian(code) + rest)));
            Parsed(Headed(MAGIC, length, EXPRESSION_FORM, expression)) == Err(UnknownComparison(code))
  {
    hide BigEndian, WordAt, DataAt, HoldsAt, Padding;
    var compared := BigEndian(code) + rest;
    var operands := BigEndian(slot) + (data.Bytes() + compared);
    var blob := Headed(MAGIC, length, EXPRESSION_FORM, BigEndian(op) + operands);
    HeaderReads(MAGIC, length, EXPRESSION_FORM, BigEndian(op) + operands);
    WordReads(blob, 12, op, operands);
    WordReads(blob, 16, slot, data.Bytes() + compared);
    DataReads(blob, 20, data, compared);
    WordReads(blob, 20 + |data.Bytes()|, code, rest);
    assert ComparisonAt(blob, 20 + |data.Bytes()|) == Refused(UnknownComparison(code), 24 + |data.Bytes()|);
    ClauseAtNested(blob, 12, 0, op);
  }

  lemma HeaderReads(magic: u32, length: u32, form: u32, rest: seq<byte>)
    ensures var blob := Headed(magic, length, form, rest);
            && |blob| == 12 + |rest| && HoldsAt(blob, 12, rest)
            && WordAt(blob, 0) == Got(magic, 4) && WordAt(blob, 4) == Got(length, 8) && WordAt(blob, 8) == Got(form, 12)
  {
    hide BigEndian, WordAt;
    var blob := Headed(magic, length, form, rest);
    assert HoldsAt(blob, 0, blob);
    WordReads(blob, 0, magic, BigEndian(length) + (BigEndian(form) + rest));
    WordReads(blob, 4, length, BigEndian(form) + rest);
    WordReads(blob, 8, form, rest);
  }

  // A writer of clauses.

  function Zeros(n: nat): (z: seq<byte>)
    ensures |z| == n
  {
    if n == 0 then [] else [0] + Zeros(n - 1)
  }

  function Pad(bytes: seq<byte>): Padded {
    Padded(bytes, Zeros(Padding(|bytes|)))
  }

  function TestFor(c: Comparison): (t: Test)
    ensures t.Meaning() == c
  {
    match c
    case Exists => Presence
    case Equals(value) => Against(1, Pad(value))
    case OtherComparison => Absence
  }

  function ExpressionFor(c: Clause): Expression {
    match c
    case And(left, right) => Binary(6, ExpressionFor(left), ExpressionFor(right))
    case Or(left, right) => Binary(7, ExpressionFor(left), ExpressionFor(right))
    case Not(negated) => Negation(ExpressionFor(negated))
    case True => Bare(1)
    case GenericAnchor => Bare(15)
    case Identifier(id) => WithData(2, Pad(id))
    case CdHash(hash) => WithData(8, Pad(hash))
    case LeafField(field, compared) => OnCertificate(11, 0, Pad(field), TestFor(compared))
    case LeafExtension(oid, compared) => OnCertificate(14, 0, Pad(oid), TestFor(compared))
    case IntermediateExtension(oid, compared) => OnCertificate(14, 1, Pad(oid), TestFor(compared))
    case Other => Bare(0)
  }

  /** Every string in the clause fits a 32-bit length. */
  predicate Encodable(c: Clause) {
    ExpressionFor(c).Valid() && Length(ExpressionFor(c)) < 0x1_0000_0000
  }

  function Encode(c: Clause): seq<byte>
    requires Encodable(c)
  {
    Written(ExpressionFor(c))
  }

  lemma {:induction false} ExpressionForMeans(c: Clause)
    requires ExpressionFor(c).Valid()
    ensures ExpressionFor(c).Meaning() == c && ExpressionFor(c).Levels() == Levels(c)
  {
    match c
    case And(left, right) => ExpressionForMeans(left); ExpressionForMeans(right);
    case Or(left, right) => ExpressionForMeans(left); ExpressionForMeans(right);
    case Not(negated) => ExpressionForMeans(negated);
    case _ =>
  }

  lemma RoundTrip(c: Clause)
    requires Encodable(c)
    ensures Parsed(Encode(c)) == if Levels(c) <= 64 then Ok(c) else Err(TooDeep)
  {
    ExpressionForMeans(c);
    WrittenParses(ExpressionFor(c));
  }

  // What holds of arbitrary bytes.

  ghost function Words(e: Expression): nat {
    match e
    case Bare(_) => 1
    case WithWord(_, _) => 2
    case WithData(_, data) => 1 + DataWords(data)
    case WithWordAndData(_, data) => 2 + DataWords(data)
    case WithTwoData(data, second) => 1 + DataWords(data) + DataWords(second)
    case WithTest(_, data, test) => 1 + DataWords(data) + TestWords(test)
    case OnCertificate(_, _, data, test) => 2 + DataWords(data) + TestWords(test)
    case Binary(_, left, right) => 1 + Words(left) + Words(right)
    case Negation(negated) => 1 + Words(negated)
  }

  ghost function DataWords(d: Padded): nat {
    1 + (|d.bytes| + 3) / 4
  }

  ghost function TestWords(t: Test): nat {
    match t
    case Presence | Absence => 1
    case Against(_, data) => 1 + DataWords(data)
    case OnDate(_, _) => 3
  }

  lemma DataAligned(d: Padded)
    requires d.Valid()
    ensures |d.Bytes()| == 4 * DataWords(d)
  {
    hide BigEndian;
  }

  lemma TestAligned(t: Test)
    requires t.Valid()
    ensures |t.Bytes()| == 4 * TestWords(t)
  {
    hide BigEndian, DataWords;
    if t.Against? {
      DataAligned(t.data);
    }
  }

  lemma {:induction false} Aligned(e: Expression)
    requires e.Valid()
    ensures |e.Bytes()| == 4 * Words(e)
  {
    hide BigEndian, DataWords, TestWords;
    match e
    case Bare(_) | WithWord(_, _) =>
    case WithData(_, data) => DataAligned(data);
    case WithWordAndData(_, data) => DataAligned(data);
    case WithTwoData(data, second) => DataAligned(data); DataAligned(second);
    case WithTest(_, data, test) => DataAligned(data); TestAligned(test);
    case OnCertificate(_, _, data, test) => DataAligned(data); TestAligned(test);
    case Binary(_, left, right) => Aligned(left); Aligned(right);
    case Negation(negated) => Aligned(negated);
  }

  lemma {:induction false} MeaningMeasures(e: Expression)
    requires e.Valid()
    ensures Levels(e.Meaning()) == e.Levels() && 4 * Nodes(e.Meaning()) <= |e.Bytes()|
  {
    match e
    case Binary(_, left, right) => MeaningMeasures(left); MeaningMeasures(right);
    case Negation(negated) => MeaningMeasures(negated);
    case _ =>
  }

  lemma MultipleOfFour(n: nat, words: nat)
    requires n == 4 * words
    ensures n % 4 == 0
  {
  }

  /** A successful read moves the cursor forward, inside the blob, by a multiple
      of four that pays four bytes for every node of the clause. */
  lemma CursorInvariant(blob: seq<byte>, at: nat, depth: nat)
    requires ClauseAt(blob, at, depth).Got?
    ensures var s := ClauseAt(blob, at, depth);
            && at < s.at <= |blob|
            && (s.at - at) % 4 == 0
            && at + 4 * Nodes(s.value) <= s.at
            && depth + Levels(s.value) <= MAX_DEPTH
  {
    hide *;
    var e := ClauseWritten(blob, at, depth);
    HoldsInside(blob, at, e.Bytes());
    MeaningMeasures(e);
    Aligned(e);
    MultipleOfFour(|e.Bytes()|, Words(e));
  }

  ghost function Consumed(blob: seq<byte>, at: nat, depth: nat): seq<byte>
    requires ClauseAt(blob, at, depth).Got?
  {
    CursorInvariant(blob, at, depth);
    blob[at..ClauseAt(blob, at, depth).at]
  }

  /** The clause depends only on the bytes consumed: the same bytes anywhere in
      any blob, read at any depth that leaves room, give the same clause and
      consume as much. */
  lemma ReadDependsOnBytesConsumed(blob: seq<byte>, at: nat, depth: nat, other: seq<byte>, from: nat, there: nat)
    requires ClauseAt(blob, at, depth).Got?
    requires there + Levels(ClauseAt(blob, at, depth).value) <= MAX_DEPTH
    requires HoldsAt(other, from, Consumed(blob, at, depth))
    ensures ClauseAt(other, from, there) ==
            Got(ClauseAt(blob, at, depth).value, from + |Consumed(blob, at, depth)|)
  {
    hide ClauseAt;
    var e := ClauseWritten(blob, at, depth);
    MeaningMeasures(e);
    ClauseReads(e, other, from, there);
  }

  lemma AcceptedBlobIsLong(blob: seq<byte>)
    requires Parsed(blob).Ok?
    ensures |blob| % 4 == 0 && 12 + 4 * Nodes(Parsed(blob).value) <= |blob|
    ensures Levels(Parsed(blob).value) <= MAX_DEPTH
  {
    hide ParsedStep, Words;
    var e := ParsedWasWritten(blob);
    MeaningMeasures(e);
    Aligned(e);
    MultipleOfFour(|blob|, 3 + Words(e));
  }
}
