/** The SERVER_PROTOCOL schema: the generated Create functions, accessors and Verify. */
module ServerProtocol {
  import opened Wrappers
  import opened Bytes
  import opened BuilderModel
  import opened Layout
  import opened BuilderSteps
  import opened BuilderRuns
  import opened FinishSteps
  import opened TableReader
  import opened TableRoundTrip
  import opened VerifierModel
  import opened BuiltBuffersVerify

  const SERVER_PROTOCOL: nat := 0
  const REQUEST_LOBBYINFO: nat := 1
  const RESPONSE_LOBBYINFO: nat := 2
  const NOTICE_LOBBYREADY: nat := 3
  const NOTICE_LOBBYINFO: nat := 4
  const NOTICE_SECRETKEY: nat := 5
  const NOTICE_RESPONSESPEED: nat := 6

  const NEGATIVE_ZERO: nat := 0x8000_0000

  /** A float is its 32 bits of IEEE 754. Where the default is 0.0f, both zeros are equal to it and not stored; no NaN is. */
  function StoredFloat(bits: nat): nat {
    if bits == NEGATIVE_ZERO then 0 else bits
  }

  /** The content of a message; strings may be absent. */
  datatype Content =
    | RequestLobbyInfo
    | ResponseLobbyInfo(feedback: bool, lobbyKey: Option<seq<byte>>, port: int)
    | NoticeLobbyReady(lobbyKey: Option<seq<byte>>, port: int, capacity: int, active: bool)
    | NoticeLobbyInfo(lobbyKey: Option<seq<byte>>, current: int, remain: int, active: bool)
    | NoticeSecretKey(secretKey: Option<seq<byte>>)
    | NoticeResponseSpeed(lobbyKey: Option<seq<byte>>, responseTime: nat)

  datatype Message = Message(messageType: int, content: Option<Content>)

  predicate Int32(v: int) {
    -TWO_31 <= v < TWO_31
  }

  predicate ContentOk(c: Content) {
    match c
    case RequestLobbyInfo => true
    case ResponseLobbyInfo(_, _, port) => Int32(port)
    case NoticeLobbyReady(_, port, capacity, _) => Int32(port) && Int32(capacity)
    case NoticeLobbyInfo(_, current, remain, _) => Int32(current) && Int32(remain)
    case NoticeSecretKey(_) => true
    case NoticeResponseSpeed(_, bits) => bits < TWO_32
  }

  predicate MessageOk(m: Message) {
    Int32(m.messageType) && (m.content.Some? ==> ContentOk(m.content.value))
  }

  /** What the receiver gets: a negative zero arrives as zero. */
  function Received(c: Content): Content {
    if c.NoticeResponseSpeed? then c.(responseTime := StoredFloat(c.responseTime)) else c
  }

  function ReceivedMessage(m: Message): Message {
    if m.content.Some? then m.(content := Some(Received(m.content.value))) else m
  }

  /** Only a negative zero does not arrive as it was sent. */
  lemma ReceivedIsSent(m: Message)
    ensures ReceivedMessage(m) == m <==>
            !(m.content.Some? && m.content.value.NoticeResponseSpeed? && m.content.value.responseTime == NEGATIVE_ZERO)
    ensures forall key :: Received(NoticeResponseSpeed(key, NEGATIVE_ZERO)) == NoticeResponseSpeed(key, 0)
  {
  }

  // ---------- the schema ----------

  const PROTOCOL_FIELDS: seq<FieldDecl> := [
    FieldDecl(4, ScalarField(4)),
    FieldDecl(6, ScalarField(1)),
    FieldDecl(8, UnionField(6, map[1 := 1, 2 := 2, 3 := 3, 4 := 4, 5 := 5, 6 := 6]))
  ]

  const NOTICE_FIELDS: seq<FieldDecl> := [
    FieldDecl(4, StringField),
    FieldDecl(6, ScalarField(4)),
    FieldDecl(8, ScalarField(4)),
    FieldDecl(10, ScalarField(1))
  ]

  /** The fields that each generated Verify checks, in its order. */
  function Tables(): (s: Schemas)
    ensures |s| == 7
  {
    var s := [
      PROTOCOL_FIELDS,
      [],
      [FieldDecl(4, ScalarField(1)), FieldDecl(6, StringField), FieldDecl(8, ScalarField(4))],
      NOTICE_FIELDS,
      NOTICE_FIELDS,
      [FieldDecl(4, StringField)],
      [FieldDecl(4, StringField), FieldDecl(6, ScalarField(4))]
    ];
    assert SchemasOk(s);
    s
  }

  // ---------- the generated Create functions, as builder calls ----------

  function Bit(b: bool): nat {
    if b then 1 else 0
  }

  /** The value of the union's type field. */
  function TypeOf(c: Content): (t: nat)
    ensures REQUEST_LOBBYINFO <= t <= NOTICE_RESPONSESPEED
  {
    match c
    case RequestLobbyInfo => REQUEST_LOBBYINFO
    case ResponseLobbyInfo(_, _, _) => RESPONSE_LOBBYINFO
    case NoticeLobbyReady(_, _, _, _) => NOTICE_LOBBYREADY
    case NoticeLobbyInfo(_, _, _, _) => NOTICE_LOBBYINFO
    case NoticeSecretKey(_) => NOTICE_SECRETKEY
    case NoticeResponseSpeed(_, _) => NOTICE_RESPONSESPEED
  }

  function KeyOf(c: Content): Option<seq<byte>> {
    match c
    case RequestLobbyInfo => None
    case ResponseLobbyInfo(_, key, _) => key
    case NoticeLobbyReady(key, _, _, _) => key
    case NoticeLobbyInfo(key, _, _, _) => key
    case NoticeSecretKey(key) => key
    case NoticeResponseSpeed(key, _) => key
  }

  /** The calls between StartTable and EndTable, in the order of the generated code. */
  function ContentFields(c: Content, key: Option<nat>): seq<FieldOp> {
    match c
    case RequestLobbyInfo => []
    case ResponseLobbyInfo(feedback, _, port) =>
      [AddScalar(8, 4, Wrap32(port), 0), AddReference(6, key), AddScalar(4, 1, Bit(feedback), 0)]
    case NoticeLobbyReady(_, port, capacity, active) =>
      [AddScalar(8, 4, Wrap32(capacity), 0), AddScalar(6, 4, Wrap32(port), 0), AddReference(4, key), AddScalar(10, 1, Bit(active), 0)]
    case NoticeLobbyInfo(_, current, remain, active) =>
      [AddScalar(8, 4, Wrap32(remain), 0), AddScalar(6, 4, Wrap32(current), 0), AddReference(4, key), AddScalar(10, 1, Bit(active), 0)]
    case NoticeSecretKey(_) =>
      [AddReference(4, key)]
    case NoticeResponseSpeed(_, time) =>
      [AddScalar(6, 4, StoredFloat(time), 0), AddReference(4, key)]
  }

  /** Create...Direct: the string first, then the table. */
  function ContentOps(c: Content): (ops: seq<Op>)
    ensures 1 <= |ops| <= 2
  {
    match KeyOf(c)
    case None => [MakeTable(ContentFields(c, None))]
    case Some(key) => [MakeString(key), MakeTable(ContentFields(c, Some(0)))]
  }

  function ProtocolFields(m: Message, content: Option<nat>): seq<FieldOp> {
    [AddReference(8, content),
     AddScalar(4, 4, Wrap32(m.messageType), 0),
     AddScalar(6, 1, if m.content.Some? then TypeOf(m.content.value) else 0, 0)]
  }

  function MessageOps(m: Message): (ops: seq<Op>)
    ensures 1 <= |ops| <= 3
  {
    match m.content
    case None => [MakeTable(ProtocolFields(m, None))]
    case Some(c) => ContentOps(c) + [MakeTable(ProtocolFields(m, Some(|ContentOps(c)| - 1)))]
  }

  // ---------- the generated accessors ----------

  function BoolField(buf: Buffer, table: int, id: nat): Access<bool> {
    var v :- GetField(buf, table, id, 1, 0);
    Value(v != 0)
  }

  function Int32Field(buf: Buffer, table: int, id: nat): Access<int> {
    var v :- GetField(buf, table, id, 4, 0);
    Value(Signed32(v))
  }

  function FloatField(buf: Buffer, table: int, id: nat): Access<nat> {
    GetField(buf, table, id, 4, 0)
  }

  function TextField(buf: Buffer, table: int, id: nat): Access<Option<seq<byte>>> {
    var p :- GetPointer(buf, table, id);
    if p.None? then Value(None)
    else
      var s :- GetString(buf, p.value);
      Value(Some(s))
  }

  /** All accessors of a content table of the given type. */
  function ReadContent(buf: Buffer, table: int, kind: nat): Access<Content>
    requires REQUEST_LOBBYINFO <= kind <= NOTICE_RESPONSESPEED
  {
    if kind == REQUEST_LOBBYINFO then Value(RequestLobbyInfo)
    else if kind == RESPONSE_LOBBYINFO then
      var feedback :- BoolField(buf, table, 4);
      var key :- TextField(buf, table, 6);
      var port :- Int32Field(buf, table, 8);
      Value(ResponseLobbyInfo(feedback, key, port))
    else if kind == NOTICE_SECRETKEY then
      var key :- TextField(buf, table, 4);
      Value(NoticeSecretKey(key))
    else if kind == NOTICE_RESPONSESPEED then
      var key :- TextField(buf, table, 4);
      var bits :- FloatField(buf, table, 6);
      Value(NoticeResponseSpeed(key, bits))
    else
      var key :- TextField(buf, table, 4);
      var first :- Int32Field(buf, table, 6);
      var second :- Int32Field(buf, table, 8);
      var active :- BoolField(buf, table, 10);
      Value(if kind == NOTICE_LOBBYREADY then NoticeLobbyReady(key, first, second, active)
            else NoticeLobbyInfo(key, first, second, active))
  }

  /** GetSERVER_PROTOCOL, its accessors, and content_as_... for the stored type. */
  function ReadMessage(buf: Buffer, sizePrefix: bool): Access<Message> {
    var root :- GetRoot(buf, Prefix(sizePrefix));
    var messageType :- Int32Field(buf, root, 4);
    var kind :- GetField(buf, root, 6, 1, 0);
    var content :- GetPointer(buf, root, 8);
    if content.None? || !(REQUEST_LOBBYINFO <= kind <= NOTICE_RESPONSESPEED) then Value(Message(messageType, None))
    else
      var c :- ReadContent(buf, content.value, kind);
      Value(Message(messageType, Some(c)))
  }

  /** Every byte but zero reads as true, whoever wrote it. */
  lemma AnyByteIsBool(buf: Buffer, table: int, id: nat, v: nat)
    requires GetField(buf, table, id, 1, 0) == Value(v)
    ensures BoolField(buf, table, id) == Value(v > 0)
  {
    hide GetField;
  }

  // ---------- the fields that end up in each table ----------

  lemma Expected3(a: FieldOp, b: FieldOp, c: FieldOp)
    ensures ExpectedFields([a, b, c]) == Put(Put(Put(map[], a), b), c)
  {
    assert [a, b, c][..2] == [a, b] && [a, b][..1] == [a] && [a][..0] == [];
    assert ExpectedFields([a, b]) == Put(ExpectedFields([a]), b);
  }

  lemma Expected4(a: FieldOp, b: FieldOp, c: FieldOp, d: FieldOp)
    ensures ExpectedFields([a, b, c, d]) == Put(Put(Put(Put(map[], a), b), c), d)
  {
    assert [a, b, c, d][..3] == [a, b, c];
    Expected3(a, b, c);
  }

  lemma Expected2(a: FieldOp, b: FieldOp)
    ensures ExpectedFields([a, b]) == Put(Put(map[], a), b)
  {
    assert [a, b][..1] == [a];
    Expected1(a);
  }

  lemma Expected1(a: FieldOp)
    ensures ExpectedFields([a]) == Put(map[], a)
  {
    assert [a][..0] == [];
  }

  /** What a stored scalar reads as: the value itself, or the default it was equal to. */
  predicate ScalarIn(m: map<nat, FieldVal>, id: nat, w: nat, v: nat) {
    if v == 0 then id !in m else id in m && m[id] == Val(w, v)
  }

  predicate ReferenceIn(m: map<nat, FieldVal>, id: nat, target: Option<nat>) {
    if target.None? then id !in m else id in m && m[id] == Ref(target.value)
  }

  /** The fields of a content table, independently of the order in which they were added. */
  predicate ContentIn(m: map<nat, FieldVal>, c: Content, key: Option<nat>) {
    match c
    case RequestLobbyInfo => m == map[]
    case ResponseLobbyInfo(feedback, _, port) =>
      ScalarIn(m, 4, 1, Bit(feedback)) && ReferenceIn(m, 6, key) && ScalarIn(m, 8, 4, Wrap32(port))
    case NoticeLobbyReady(_, port, capacity, active) =>
      ReferenceIn(m, 4, key) && ScalarIn(m, 6, 4, Wrap32(port)) && ScalarIn(m, 8, 4, Wrap32(capacity)) && ScalarIn(m, 10, 1, Bit(active))
    case NoticeLobbyInfo(_, current, remain, active) =>
      ReferenceIn(m, 4, key) && ScalarIn(m, 6, 4, Wrap32(current)) && ScalarIn(m, 8, 4, Wrap32(remain)) && ScalarIn(m, 10, 1, Bit(active))
    case NoticeSecretKey(_) => ReferenceIn(m, 4, key)
    case NoticeResponseSpeed(_, time) => ReferenceIn(m, 4, key) && ScalarIn(m, 6, 4, StoredFloat(time))
  }

  lemma ContentFieldsIn(c: Content, key: Option<nat>)
    ensures ContentIn(ExpectedFields(ContentFields(c, key)), c, key)
  {
    hide ScalarIn, ReferenceIn, ExpectedFields, Wrap32, Bit, StoredFloat;
    match c {
      case RequestLobbyInfo => NoFieldsIn();
      case ResponseLobbyInfo(feedback, _, port) => ResponseFieldsIn(Bit(feedback), key, Wrap32(port));
      case NoticeLobbyReady(_, port, capacity, active) => NoticeFieldsIn(key, Wrap32(port), Wrap32(capacity), Bit(active));
      case NoticeLobbyInfo(_, current, remain, active) => NoticeFieldsIn(key, Wrap32(current), Wrap32(remain), Bit(active));
      case NoticeSecretKey(_) => KeyFieldIn(key);
      case NoticeResponseSpeed(_, time) => SpeedFieldsIn(key, StoredFloat(time));
    }
  }

  lemma NoFieldsIn()
    ensures ExpectedFields([]) == map[]
  {
  }

  lemma ResponseFieldsIn(feedback: nat, key: Option<nat>, port: nat)
    ensures var m := ExpectedFields([AddScalar(8, 4, port, 0), AddReference(6, key), AddScalar(4, 1, feedback, 0)]);
            ScalarIn(m, 4, 1, feedback) && ReferenceIn(m, 6, key) && ScalarIn(m, 8, 4, port)
  {
    hide ExpectedFields;
    Expected3(AddScalar(8, 4, port, 0), AddReference(6, key), AddScalar(4, 1, feedback, 0));
  }

  lemma NoticeFieldsIn(key: Option<nat>, first: nat, second: nat, active: nat)
    ensures var m := ExpectedFields([AddScalar(8, 4, second, 0), AddScalar(6, 4, first, 0), AddReference(4, key), AddScalar(10, 1, active, 0)]);
            ReferenceIn(m, 4, key) && ScalarIn(m, 6, 4, first) && ScalarIn(m, 8, 4, second) && ScalarIn(m, 10, 1, active)
  {
    hide ExpectedFields;
    Expected4(AddScalar(8, 4, second, 0), AddScalar(6, 4, first, 0), AddReference(4, key), AddScalar(10, 1, active, 0));
  }

  lemma KeyFieldIn(key: Option<nat>)
    ensures ReferenceIn(ExpectedFields([AddReference(4, key)]), 4, key)
  {
    hide ExpectedFields;
    Expected1(AddReference(4, key));
  }

  lemma SpeedFieldsIn(key: Option<nat>, time: nat)
    ensures var m := ExpectedFields([AddScalar(6, 4, time, 0), AddReference(4, key)]);
            ReferenceIn(m, 4, key) && ScalarIn(m, 6, 4, time)
  {
    hide ExpectedFields;
    Expected2(AddScalar(6, 4, time, 0), AddReference(4, key));
  }

  lemma ProtocolFieldsIn(m: Message, content: Option<nat>)
    ensures var fields := ExpectedFields(ProtocolFields(m, content));
            && ScalarIn(fields, 4, 4, Wrap32(m.messageType)) && ReferenceIn(fields, 8, content)
            && ScalarIn(fields, 6, 1, if m.content.Some? then TypeOf(m.content.value) else 0)
  {
    hide Wrap32;
    var fs := ProtocolFields(m, content);
    Expected3(fs[0], fs[1], fs[2]);
    hide ExpectedFields;
  }

  // ---------- reading back ----------

  lemma BoolReads(buf: Buffer, table: int, m: map<nat, FieldVal>, offs: seq<nat>, id: nat, b: bool)
    requires FieldReadsAs(buf, table, m, id, 1, 0, offs) && ScalarIn(m, id, 1, Bit(b))
    ensures BoolField(buf, table, id) == Value(b)
  {
    hide GetField, GetPointer;
  }

  lemma Int32Reads(buf: Buffer, table: int, m: map<nat, FieldVal>, offs: seq<nat>, id: nat, v: int)
    requires FieldReadsAs(buf, table, m, id, 4, 0, offs) && ScalarIn(m, id, 4, Wrap32(v)) && Int32(v)
    ensures Int32Field(buf, table, id) == Value(v)
  {
    hide GetField, GetPointer, Wrap32;
    Signed32OfWrap32(v);
  }

  /** The string that a reference leads to. */
  predicate KeyReads(buf: Buffer, offs: seq<nat>, key: Option<nat>, text: Option<seq<byte>>) {
    match key
    case None => text.None?
    case Some(h) => h < |offs| && text.Some? && GetString(buf, |buf| - offs[h]) == Value(text.value)
  }

  lemma TextReads(buf: Buffer, table: int, m: map<nat, FieldVal>, offs: seq<nat>, id: nat, key: Option<nat>, text: Option<seq<byte>>)
    requires FieldReadsAs(buf, table, m, id, 1, 0, offs) && ReferenceIn(m, id, key) && KeyReads(buf, offs, key, text)
    ensures TextField(buf, table, id) == Value(text)
  {
    hide GetField, GetPointer, GetString;
  }

  lemma AnyFieldReads(buf: Buffer, off: nat, m: map<nat, FieldVal>, offs: seq<nat>, id: nat, w: nat)
    requires ReadsAs(buf, off, TableObj(m), offs) && FieldId(id)
    ensures FieldReadsAs(buf, |buf| - off, m, id, w, 0, offs)
  {
  }

  /** The accessors of a content table return the content it was created from. */
  lemma ContentReads(buf: Buffer, offs: seq<nat>, off: nat, m: map<nat, FieldVal>, c: Content, key: Option<nat>)
    requires ReadsAs(buf, off, TableObj(m), offs) && ContentIn(m, c, key) && ContentOk(c) && KeyReads(buf, offs, key, KeyOf(c))
    ensures ReadContent(buf, |buf| - off, TypeOf(c)) == Value(Received(c))
  {
    hide FieldReadsAs, ScalarIn, ReferenceIn, KeyReads, BoolField, Int32Field, TextField, Wrap32;
    var t := |buf| - off;
    AnyFieldReads(buf, off, m, offs, 4, 1);
    AnyFieldReads(buf, off, m, offs, 6, 1);
    AnyFieldReads(buf, off, m, offs, 10, 1);
    AnyFieldReads(buf, off, m, offs, 6, 4);
    AnyFieldReads(buf, off, m, offs, 8, 4);
    match c {
      case RequestLobbyInfo =>
      case ResponseLobbyInfo(feedback, k, port) =>
        BoolReads(buf, t, m, offs, 4, feedback);
        TextReads(buf, t, m, offs, 6, key, k);
        Int32Reads(buf, t, m, offs, 8, port);
      case NoticeLobbyReady(k, port, capacity, active) =>
        NoticeReads(buf, t, m, offs, key, k, port, capacity, active);
      case NoticeLobbyInfo(k, current, remain, active) =>
        NoticeReads(buf, t, m, offs, key, k, current, remain, active);
      case NoticeSecretKey(k) =>
        TextReads(buf, t, m, offs, 4, key, k);
      case NoticeResponseSpeed(k, time) =>
        TextReads(buf, t, m, offs, 4, key, k);
        FloatReads(buf, t, m, offs, 6, time);
    }
  }

  lemma FloatReads(buf: Buffer, table: int, m: map<nat, FieldVal>, offs: seq<nat>, id: nat, bits: nat)
    requires FieldReadsAs(buf, table, m, id, 4, 0, offs) && ScalarIn(m, id, 4, StoredFloat(bits))
    ensures FloatField(buf, table, id) == Value(StoredFloat(bits))
  {
    hide GetField, GetPointer;
  }

  lemma NoticeReads(buf: Buffer, t: int, m: map<nat, FieldVal>, offs: seq<nat>, key: Option<nat>, text: Option<seq<byte>>,
                    first: int, second: int, active: bool)
    requires FieldReadsAs(buf, t, m, 4, 1, 0, offs) && FieldReadsAs(buf, t, m, 10, 1, 0, offs)
    requires FieldReadsAs(buf, t, m, 6, 4, 0, offs) && FieldReadsAs(buf, t, m, 8, 4, 0, offs)
    requires ReferenceIn(m, 4, key) && KeyReads(buf, offs, key, text) && Int32(first) && Int32(second)
    requires ScalarIn(m, 6, 4, Wrap32(first)) && ScalarIn(m, 8, 4, Wrap32(second)) && ScalarIn(m, 10, 1, Bit(active))
    ensures TextField(buf, t, 4) == Value(text) && Int32Field(buf, t, 6) == Value(first)
    ensures Int32Field(buf, t, 8) == Value(second) && BoolField(buf, t, 10) == Value(active)
  {
    hide FieldReadsAs, ScalarIn, ReferenceIn, KeyReads, BoolField, Int32Field, TextField, Wrap32;
    TextReads(buf, t, m, offs, 4, key, text);
    Int32Reads(buf, t, m, offs, 6, first);
    Int32Reads(buf, t, m, offs, 8, second);
    BoolReads(buf, t, m, offs, 10, active);
  }

  /** The accessors of the protocol table return the message it was created from. */
  lemma ProtocolReads(buf: Buffer, offs: seq<nat>, off: nat, fields: map<nat, FieldVal>, m: Message, content: Option<nat>, sizePrefix: bool)
    requires ReadsAs(buf, off, TableObj(fields), offs) && Int32(m.messageType)
    requires ScalarIn(fields, 4, 4, Wrap32(m.messageType)) && ReferenceIn(fields, 8, content)
    requires ScalarIn(fields, 6, 1, if m.content.Some? then TypeOf(m.content.value) else 0)
    requires content.Some? <==> m.content.Some?
    requires GetRoot(buf, Prefix(sizePrefix)) == Value(|buf| - off)
    requires content.Some? ==> content.value < |offs|
    requires content.Some? ==>
               ReadContent(buf, |buf| - offs[content.value], TypeOf(m.content.value)) == Value(Received(m.content.value))
    ensures ReadMessage(buf, sizePrefix) == Value(ReceivedMessage(m))
  {
    hide GetRoot, GetField, GetPointer, ReadContent, Int32Field, Wrap32;
    var t := |buf| - off;
    assert FieldId(4) && FieldId(6) && FieldId(8);
    assert FieldReadsAs(buf, t, fields, 4, 4, 0, offs) && FieldReadsAs(buf, t, fields, 6, 1, 0, offs) && FieldReadsAs(buf, t, fields, 8, 4, 0, offs);
    Int32Reads(buf, t, fields, offs, 4, m.messageType);
  }

  // ---------- the tables conform to the schema ----------

  lemma {:induction false} ContentConforms(ops: seq<Op>, h: nat, c: Content, key: Option<nat>)
    requires h < |ops| && ops[h] == MakeTable(ContentFields(c, key))
    requires key.Some? ==> key.value < h && ops[key.value].MakeString?
    ensures Conforms(ops, h, Tables(), TypeOf(c))
    ensures TableCost(ops, h, Tables(), TypeOf(c)) == Counters(1, 1)
  {
    hide ContentFields, ExpectedFields, Wrap32, Conforms;
    ContentFieldsIn(c, key);
    var k := TypeOf(c);
    var m := ExpectedFields(ContentFields(c, key));
    NoUnions(k);
    NoUnionCost(ops, h, k, 0);
    forall i: nat | i < |Tables()[k]|
      ensures FieldConforms(ops, h, Tables(), k, i)
    {
    }
    AllFieldsConform(ops, h, k);
  }

  lemma NoUnions(k: nat)
    requires REQUEST_LOBBYINFO <= k < |Tables()|
    ensures forall i: nat :: i < |Tables()[k]| ==> !Field(Tables(), k, i).kind.UnionField?
  {
  }

  lemma {:induction false} AllFieldsConform(ops: seq<Op>, h: nat, k: nat)
    requires h < |ops| && ops[h].MakeTable? && k < |Tables()|
    requires forall i: nat :: i < |Tables()[k]| ==> FieldConforms(ops, h, Tables(), k, i)
    ensures Conforms(ops, h, Tables(), k)
  {
    hide FieldConforms, Tables;
  }

  lemma {:induction false} NoUnionCost(ops: seq<Op>, h: nat, k: nat, i: nat)
    requires h < |ops| && ops[h].MakeTable? && k < |Tables()| && i <= |Tables()[k]|
    requires forall j: nat :: i <= j < |Tables()[k]| ==> !Field(Tables(), k, j).kind.UnionField?
    ensures FieldsCost(ops, h, Tables(), k, i) == Counters(0, 0)
    decreases |Tables()[k]| - i
  {
    hide Tables, ExpectedFields;
    if i < |Tables()[k]| {
      NoUnionCost(ops, h, k, i + 1);
    }
  }

  lemma {:induction false} ProtocolConforms(ops: seq<Op>, h: nat, m: Message, content: Option<nat>)
    requires h < |ops| && ops[h] == MakeTable(ProtocolFields(m, content)) && (content.Some? <==> m.content.Some?)
    requires content.Some? ==> content.value < h && ops[content.value].MakeTable?
    requires content.Some? ==> Conforms(ops, content.value, Tables(), TypeOf(m.content.value))
    requires content.Some? ==> TableCost(ops, content.value, Tables(), TypeOf(m.content.value)) == Counters(1, 1)
    ensures Conforms(ops, h, Tables(), SERVER_PROTOCOL)
    ensures Within(DEFAULT_OPTIONS, Counters(0, 0), TableCost(ops, h, Tables(), SERVER_PROTOCOL))
  {
    hide ProtocolFields, ExpectedFields, Wrap32, Conforms, TableCost, FieldsCost, Nested;
    ProtocolFieldsIn(m, content);
    forall i: nat | i < |Tables()[SERVER_PROTOCOL]|
      ensures FieldConforms(ops, h, Tables(), SERVER_PROTOCOL, i)
    {
    }
    AllFieldsConform(ops, h, SERVER_PROTOCOL);
    ProtocolNested(ops, h, m, content);
    ProtocolCost(ops, h);
  }

  /** The union field leads to the content. */
  lemma ProtocolNested(ops: seq<Op>, h: nat, m: Message, content: Option<nat>)
    requires h < |ops| && ops[h] == MakeTable(ProtocolFields(m, content)) && (content.Some? <==> m.content.Some?)
    requires content.Some? ==> content.value < h && ops[content.value].MakeTable?
    ensures Nested(ops, h, Tables(), SERVER_PROTOCOL, 0).None? && Nested(ops, h, Tables(), SERVER_PROTOCOL, 1).None?
    ensures Nested(ops, h, Tables(), SERVER_PROTOCOL, 2) ==
            if content.None? then None else Some((content.value, TypeOf(m.content.value)))
  {
    hide ProtocolFields, ExpectedFields, Wrap32;
    ProtocolFieldsIn(m, content);
  }

  lemma ProtocolCost(ops: seq<Op>, h: nat)
    requires h < |ops| && ops[h].MakeTable?
    requires Nested(ops, h, Tables(), SERVER_PROTOCOL, 0).None? && Nested(ops, h, Tables(), SERVER_PROTOCOL, 1).None?
    ensures TableCost(ops, h, Tables(), SERVER_PROTOCOL) ==
            match Nested(ops, h, Tables(), SERVER_PROTOCOL, 2)
            case None => Counters(1, 1)
            case Some((child, t)) =>
              var below := TableCost(ops, child, Tables(), t);
              Counters(below.depth + 1, below.numTables + 1)
  {
    hide Nested;
    var c3 := FieldsCost(ops, h, Tables(), SERVER_PROTOCOL, 3);
    var c2 := FieldsCost(ops, h, Tables(), SERVER_PROTOCOL, 2);
    assert FieldsCost(ops, h, Tables(), SERVER_PROTOCOL, 1) == c2;
    assert FieldsCost(ops, h, Tables(), SERVER_PROTOCOL, 0) == c2;
  }

  // ---------- whole messages ----------

  function KeyLength(c: Content): nat {
    if KeyOf(c).Some? then |KeyOf(c).value| else 0
  }

  function TextLength(m: Message): nat {
    if m.content.Some? then KeyLength(m.content.value) else 0
  }

  /** The handle of the content's string among its own calls. */
  function KeyHandle(c: Content): Option<nat> {
    if KeyOf(c).Some? then Some(0) else None
  }

  function ContentHandle(m: Message): Option<nat> {
    if m.content.Some? then Some(|ContentOps(m.content.value)| - 1) else None
  }

  lemma ContentFieldsLegal(c: Content, key: Option<nat>, made: nat)
    requires ContentOk(c) && (key.Some? ==> key.value < made)
    ensures FieldsLegal(ContentFields(c, key), made) && |ContentFields(c, key)| <= 4
    ensures MaxId(ContentFields(c, key)) <= 10
  {
    Pow256Values();
    hide Pow256, Wrap32;
    var fs := ContentFields(c, key);
    if |fs| == 3 {
      MaxId3(fs[0], fs[1], fs[2]);
    } else if |fs| == 4 {
      assert fs[..3] == [fs[0], fs[1], fs[2]];
      MaxId3(fs[0], fs[1], fs[2]);
    } else if |fs| == 2 {
      MaxId2(fs[0], fs[1]);
    } else if |fs| == 1 {
      assert fs[..0] == [];
    }
  }

  lemma MaxId2(a: FieldOp, b: FieldOp)
    requires a.id <= 10 && b.id <= 10
    ensures MaxId([a, b]) <= 10
  {
    assert [a, b][..1] == [a] && [a][..0] == [];
    assert MaxId([a]) <= 10;
  }

  lemma MaxId3(a: FieldOp, b: FieldOp, c: FieldOp)
    requires a.id <= 10 && b.id <= 10 && c.id <= 10
    ensures MaxId([a, b, c]) <= 10
  {
    assert [a, b, c][..2] == [a, b] && [a, b][..1] == [a] && [a][..0] == [];
    assert MaxId([a]) <= 10;
    assert MaxId([a, b]) <= 10;
  }

  lemma ProtocolFieldsLegal(m: Message, content: Option<nat>, made: nat)
    requires MessageOk(m) && (content.Some? ==> content.value < made)
    ensures FieldsLegal(ProtocolFields(m, content), made) && |ProtocolFields(m, content)| == 3
    ensures MaxId(ProtocolFields(m, content)) <= 10
  {
    Pow256Values();
    hide Pow256, Wrap32;
    var fs := ProtocolFields(m, content);
    MaxId3(fs[0], fs[1], fs[2]);
  }

  lemma ContentOpsLegal(c: Content)
    requires ContentOk(c)
    ensures OpsLegal(ContentOps(c)) && TotalBudget(ContentOps(c)) <= KeyLength(c) + 95
  {
    hide ContentFields, FieldsLegal, MaxId;
    var key := KeyHandle(c);
    ContentFieldsLegal(c, key, if key.Some? then 1 else 0);
    var ops := ContentOps(c);
    if key.Some? {
      assert ops[..1] == [ops[0]] && [ops[0]][..0] == [];
      assert TotalBudget([ops[0]]) == Budget(ops[0]);
    } else {
      assert ops[..0] == [];
    }
  }

  lemma MessageOpsLegal(m: Message)
    requires MessageOk(m)
    ensures OpsLegal(MessageOps(m)) && TotalBudget(MessageOps(m)) <= TextLength(m) + 165
  {
    hide ProtocolFields, FieldsLegal, MaxId, ContentOps;
    var content := ContentHandle(m);
    var ops := MessageOps(m);
    ProtocolFieldsLegal(m, content, |ops| - 1);
    if m.content.Some? {
      ContentOpsLegal(m.content.value);
      assert ops[..|ops| - 1] == ContentOps(m.content.value);
    } else {
      assert ops[..0] == [];
    }
  }

  /** A run of legal calls that ends in a table can be finished on that table. */
  lemma {:induction false} RunFinishable(dedup: bool, ops: seq<Op>, fileId: Option<seq<byte>>, sizePrefix: bool)
    requires OpsLegal(ops) && TotalBudget(ops) + 24 < MAX_BUFFER_SIZE && ops != [] && ops[|ops| - 1].MakeTable?
    requires fileId.Some? ==> |fileId.value| == FILE_IDENTIFIER_LENGTH
    ensures Finishable(dedup, ops, |ops| - 1, fileId, sizePrefix)
  {
    hide Steps, Start, OpsLegal, TotalBudget, Inv, Finish;
    RunsSucceed(dedup, ops);
    RunsKeepInvariant(dedup, ops);
    var r := Steps(Start(dedup), ops).value;
    RunHasEight(r, |ops| - 1);
    RunReady(r);
    FinishNeeds(r.state, r.offs[|ops| - 1], fileId, sizePrefix);
  }

  lemma RunReady(r: Run)
    requires Inv(r)
    ensures NotNested(r.state) && !r.state.finished && Tracked(r.state.minAlign)
  {
    hide ObjectsAt, TablesShareVTables, VTablesGood, PoolAt, SharedInPool;
  }

  lemma MadeString(ops: seq<Op>, h: nat, buf: Buffer, offs: seq<nat>, key: seq<byte>)
    requires h < |ops| == |offs| && ops[h] == MakeString(key) && ReadsAs(buf, offs[h], Expected(ops[h]), offs)
    ensures KeyReads(buf, offs, Some(h), Some(key))
  {
    hide GetString, GetTerminator;
  }

  /** The content table made by ContentOps reads back, wherever the run goes on. */
  lemma ContentInRun(ops: seq<Op>, c: Content, buf: Buffer, offs: seq<nat>)
    requires ContentOk(c) && ContentOps(c) <= ops && |offs| == |ops|
    requires forall h :: 0 <= h < |ops| ==> ReadsAs(buf, offs[h], Expected(ops[h]), offs)
    ensures ReadContent(buf, |buf| - offs[|ContentOps(c)| - 1], TypeOf(c)) == Value(Received(c))
  {
    hide ReadsAs, ContentFields, ReadContent, ContentIn, ExpectedFields, KeyReads, GetString;
    var h, key := |ContentOps(c)| - 1, KeyHandle(c);
    ContentFieldsIn(c, key);
    assert ops[h] == MakeTable(ContentFields(c, key));
    if key.Some? {
      assert ops[0] == MakeString(KeyOf(c).value);
      MadeString(ops, 0, buf, offs, KeyOf(c).value);
    }
    assert KeyReads(buf, offs, key, KeyOf(c)) by {
      if key.None? { NoKeyReads(buf, offs); }
    }
    ContentReads(buf, offs, offs[h], ExpectedFields(ContentFields(c, key)), c, key);
  }

  lemma NoKeyReads(buf: Buffer, offs: seq<nat>)
    ensures KeyReads(buf, offs, None, None)
  {
  }

  lemma ContentOpsConform(ops: seq<Op>, c: Content)
    requires ContentOps(c) <= ops
    ensures var h := |ContentOps(c)| - 1;
            && ops[h].MakeTable? && Conforms(ops, h, Tables(), TypeOf(c))
            && TableCost(ops, h, Tables(), TypeOf(c)) == Counters(1, 1)
  {
    hide ContentFields, Conforms, TableCost, Tables;
    var h, key := |ContentOps(c)| - 1, KeyHandle(c);
    assert ops[h] == MakeTable(ContentFields(c, key));
    if key.Some? {
      assert ops[0] == MakeString(KeyOf(c).value);
    }
    ContentConforms(ops, h, c, key);
  }

  lemma MessageInRun(m: Message, buf: Buffer, offs: seq<nat>, sizePrefix: bool)
    requires MessageOk(m) && |offs| == |MessageOps(m)|
    requires GetRoot(buf, Prefix(sizePrefix)) == Value(|buf| - offs[|offs| - 1])
    requires forall h :: 0 <= h < |offs| ==> ReadsAs(buf, offs[h], Expected(MessageOps(m)[h]), offs)
    ensures ReadMessage(buf, sizePrefix) == Value(ReceivedMessage(m))
  {
    hide ReadsAs, ContentOps, ReadContent, ReadMessage, ExpectedFields, ProtocolFields, ScalarIn, ReferenceIn, GetRoot, Wrap32;
    var ops, content := MessageOps(m), ContentHandle(m);
    if m.content.Some? {
      ContentInRun(ops, m.content.value, buf, offs);
    }
    ProtocolFieldsIn(m, content);
    var last := |ops| - 1;
    assert ops[last] == MakeTable(ProtocolFields(m, content));
    ProtocolReads(buf, offs, offs[last], ExpectedFields(ProtocolFields(m, content)), m, content, sizePrefix);
  }

  lemma MessageConforms(m: Message)
    ensures var ops := MessageOps(m);
            && Conforms(ops, |ops| - 1, Tables(), SERVER_PROTOCOL)
            && Within(DEFAULT_OPTIONS, Counters(0, 0), TableCost(ops, |ops| - 1, Tables(), SERVER_PROTOCOL))
  {
    hide ContentOps, ProtocolFields, Conforms, TableCost, Tables, Within;
    var ops, content := MessageOps(m), ContentHandle(m);
    if m.content.Some? {
      ContentOpsConform(ops, m.content.value);
    }
    ProtocolConforms(ops, |ops| - 1, m, content);
  }

  /** The generated Verify accepts the buffer, and the accessors return the message as it is received. */
  ghost predicate MessageArrives(buf: Buffer, m: Message, fileId: Option<seq<byte>>, sizePrefix: bool)
    requires fileId.Some? ==> |fileId.value| == FILE_IDENTIFIER_LENGTH
  {
    && |buf| < TWO_31
    && VerifyBuffer(buf, DEFAULT_OPTIONS, Tables(), SERVER_PROTOCOL, fileId, sizePrefix)
    && ReadMessage(buf, sizePrefix) == Value(ReceivedMessage(m))
  }

  /** The same where the root of the buffer is the content table itself. */
  ghost predicate ContentArrives(buf: Buffer, c: Content, fileId: Option<seq<byte>>, sizePrefix: bool)
    requires fileId.Some? ==> |fileId.value| == FILE_IDENTIFIER_LENGTH
  {
    && |buf| < TWO_31
    && VerifyBuffer(buf, DEFAULT_OPTIONS, Tables(), TypeOf(c), fileId, sizePrefix)
    && var root := GetRoot(buf, Prefix(sizePrefix));
    && root.Value? && ReadContent(buf, root.value, TypeOf(c)) == Value(Received(c))
  }

  /** Creating a message, finishing the buffer and reading it back yields the message, and the generated Verify accepts it. */
  lemma {:induction false} MessageRoundTrip(m: Message, dedup: bool, fileId: Option<seq<byte>>, sizePrefix: bool)
    requires MessageOk(m) && TextLength(m) + 189 < MAX_BUFFER_SIZE
    requires fileId.Some? ==> |fileId.value| == FILE_IDENTIFIER_LENGTH
    ensures var ops := MessageOps(m);
            && Finishable(dedup, ops, |ops| - 1, fileId, sizePrefix)
            && MessageArrives(Finished(dedup, ops, |ops| - 1, fileId, sizePrefix).data, m, fileId, sizePrefix)
  {
    hide MessageOk, TextLength, MessageOps, Steps, Start, Finish, ReadsAs, ReadMessage, GetRoot, VerifyBuffer, OpsLegal, TotalBudget;
    hide Conforms, Within, TableCost, Tables;
    var ops := MessageOps(m);
    MessageOpsLegal(m);
    LastIsTable(m);
    RunFinishable(dedup, ops, fileId, sizePrefix);
    RoundTrip(dedup, ops, |ops| - 1, fileId, sizePrefix);
    var f := Finished(dedup, ops, |ops| - 1, fileId, sizePrefix);
    MessageInRun(m, f.data, Offsets(dedup, ops), sizePrefix);
    MessageConforms(m);
    BuiltBufferVerifies(dedup, ops, |ops| - 1, fileId, sizePrefix, DEFAULT_OPTIONS, Tables(), SERVER_PROTOCOL);
  }

  lemma LastIsTable(m: Message)
    ensures MessageOps(m)[|MessageOps(m)| - 1].MakeTable?
  {
    hide ContentOps, ProtocolFields;
  }

  lemma LastOfContent(c: Content)
    ensures ContentOps(c)[|ContentOps(c)| - 1].MakeTable?
  {
    hide ContentFields;
  }

  /** The same for a content table that is itself the root, as the lobby server sends its lobby information. */
  lemma {:induction false} ContentRoundTrip(c: Content, dedup: bool, fileId: Option<seq<byte>>, sizePrefix: bool)
    requires ContentOk(c) && KeyLength(c) + 119 < MAX_BUFFER_SIZE
    requires fileId.Some? ==> |fileId.value| == FILE_IDENTIFIER_LENGTH
    ensures var ops := ContentOps(c);
            && Finishable(dedup, ops, |ops| - 1, fileId, sizePrefix)
            && ContentArrives(Finished(dedup, ops, |ops| - 1, fileId, sizePrefix).data, c, fileId, sizePrefix)
  {
    hide ContentOk, KeyLength, ContentOps, Steps, Start, Finish, ReadsAs, ReadContent, GetRoot, VerifyBuffer, OpsLegal, TotalBudget;
    hide Conforms, TableCost, Tables;
    var ops := ContentOps(c);
    ContentOpsLegal(c);
    LastOfContent(c);
    RunFinishable(dedup, ops, fileId, sizePrefix);
    RoundTrip(dedup, ops, |ops| - 1, fileId, sizePrefix);
    var f := Finished(dedup, ops, |ops| - 1, fileId, sizePrefix);
    ContentInRun(ops, c, f.data, Offsets(dedup, ops));
    ContentOpsConform(ops, c);
    BuiltBufferVerifies(dedup, ops, |ops| - 1, fileId, sizePrefix, DEFAULT_OPTIONS, Tables(), TypeOf(c));
  }
}
