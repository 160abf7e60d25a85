/** How a grant is stored: a document of named fields, times in microseconds. */
module GrantCodec {
  import opened Wrappers
  import opened Capability
  import opened ByteOrder

  const MIN_I64: int := -0x8000_0000_0000_0000
  const MAX_I64: int := 0x7FFF_FFFF_FFFF_FFFF
  const MAX_U32: int := 0xFFFF_FFFF

  datatype Value =
    | Null
    | Text(text: string)
    | Bytes(bytes: seq<Byte>)
    | Integer(value: int)
    | Array(items: seq<Value>)
    | Object(members: map<string, Value>)

  datatype Name =
    | SubjectKindName
    | SubjectId
    | IssuerKindName
    | IssuerId
    | Actions
    | ResourceKind
    | ResourceId
    | DelegableActions
    | MaxDepth
    | ParentId
    | NotBefore
    | ExpiresAt
    | RevokedAt
    | PolicyVersion

  type Document = map<Name, Value>

  /** Division that drops the fraction toward zero. */
  function Truncated(a: int, b: int): (q: int)
    requires 0 < b
  {
    if 0 <= a then a / b else -((-a) / b)
  }

  predicate Fits(time: Option<int>)
  {
    time.Some? ==> MIN_I64 <= time.value * 1_000 <= MAX_I64
  }

  function Time(time: Option<int>): (field: Option<Value>)
  {
    if time.Some? then Some(Integer(time.value * 1_000)) else None
  }

  function Spelling(kind: SubjectKind): (text: string)
  {
    match kind
    case User => "user"
    case Creature => "creature"
    case Node => "node"
    case Service => "service"
    case Workload => "workload"
    case ModulePublisher => "module_publisher"
  }

  const KINDS: seq<SubjectKind> := [User, Creature, Node, Service, Workload, ModulePublisher]

  /** The first kind that is spelled so. */
  function KindOf(text: string, kinds: seq<SubjectKind>): (kind: Option<SubjectKind>)
  {
    if kinds == [] then None
    else if Spelling(kinds[0]) == text then Some(kinds[0])
    else KindOf(text, kinds[1..])
  }

  function Texts(names: seq<string>): (items: seq<Value>)
  {
    seq(|names|, i requires 0 <= i < |names| => Text(names[i]))
  }

  /** A set of names, in byte order, as a document of its own. */
  ghost function NameDocument(names: set<string>): (value: Value)
  {
    Object(map["names" := Array(Texts(Sorted(names)))])
  }

  /** What is stored under a name, if anything. */
  ghost function FieldOf(g: Grant, name: Name): (field: Option<Value>)
  {
    match name
    case SubjectKindName => Some(Text(Spelling(g.subject.kind)))
    case SubjectId => Some(Bytes(g.subject.id))
    case IssuerKindName => Some(Text(Spelling(g.issuer.kind)))
    case IssuerId => Some(Bytes(g.issuer.id))
    case Actions => Some(NameDocument(g.actions))
    case ResourceKind => Some(Text(g.resource.kind))
    case ResourceId => if g.resource.Exact? then Some(Text(g.resource.id)) else None
    case DelegableActions => Some(NameDocument(g.delegable))
    case MaxDepth => Some(Integer(g.maxDepth))
    case ParentId => if g.parent.Some? then Some(Bytes(g.parent.value)) else None
    case NotBefore => Time(Some(g.notBefore))
    case ExpiresAt => Time(g.expires)
    case RevokedAt => Time(g.revoked)
    case PolicyVersion => Some(Text(g.policyVersion))
  }

  /** The stored form of a grant; a time too large to store is an error. */
  ghost function Fields(g: Grant): (fields: Option<Document>)
    ensures fields.Some? <==> Fits(Some(g.notBefore)) && Fits(g.expires) && Fits(g.revoked)
  {
    if !Fits(Some(g.notBefore)) || !Fits(g.expires) || !Fits(g.revoked) then None
    else Some(map name: Name | FieldOf(g, name).Some? :: FieldOf(g, name).value)
  }

  function TextAt(d: Document, name: Name): (text: string)
  {
    if name in d && d[name].Text? then d[name].text else ""
  }

  function TimeAt(d: Document, name: Name): (time: Result<Option<int>, PortError>)
  {
    if name !in d || d[name].Null? then Ok(None)
    else if d[name].Integer? then Ok(Some(Truncated(d[name].value, 1_000)))
    else Err(Failed)
  }

  function UuidAt(d: Document, name: Name): (id: Result<Option<Id>, PortError>)
  {
    if name !in d || d[name].Null? then Ok(None)
    else if d[name].Bytes? && |d[name].bytes| == 16 then Ok(Some(d[name].bytes))
    else Err(Failed)
  }

  function SubjectAt(d: Document, kindName: Name, idName: Name): (subject: Result<Subject, PortError>)
  {
    var kind, id := KindOf(TextAt(d, kindName), KINDS), UuidAt(d, idName);
    if kind.None? || id.Err? || id.value.None? then Err(Failed)
    else Ok(Subject(kind.value, id.value.value))
  }

  predicate AllTexts(items: seq<Value>)
  {
    forall i :: 0 <= i < |items| ==> items[i].Text?
  }

  function NamesIn(items: seq<Value>): (names: set<string>)
    requires AllTexts(items)
  {
    set i | 0 <= i < |items| :: items[i].text
  }

  function NamesAt(d: Document, name: Name): (names: Result<set<string>, PortError>)
  {
    if !(name in d && d[name].Object? && "names" in d[name].members) then Err(Failed)
    else
      var names := d[name].members["names"];
      if names.Array? && AllTexts(names.items) then Ok(NamesIn(names.items)) else Err(Failed)
  }

  function DepthAt(d: Document): (depth: Result<nat, PortError>)
  {
    if MaxDepth in d && d[MaxDepth].Integer? && 0 <= d[MaxDepth].value <= MAX_U32 then Ok(d[MaxDepth].value)
    else Err(Failed)
  }

  function ResourceAt(d: Document): (resource: Selector)
  {
    var kind := TextAt(d, ResourceKind);
    if ResourceId in d && d[ResourceId].Text? then Exact(kind, d[ResourceId].text) else AnyOfKind(kind)
  }

  /** Reading a stored grant back. A text that is missing reads as empty; anything else
      missing or of the wrong shape is an error. */
  function Stored(id: Id, d: Document): (grant: Result<Grant, PortError>)
  {
    var subject, issuer := SubjectAt(d, SubjectKindName, SubjectId), SubjectAt(d, IssuerKindName, IssuerId);
    var actions, delegable, depth := NamesAt(d, Actions), NamesAt(d, DelegableActions), DepthAt(d);
    var notBefore, expires, revoked := TimeAt(d, NotBefore), TimeAt(d, ExpiresAt), TimeAt(d, RevokedAt);
    var parent := UuidAt(d, ParentId);
    if subject.Err? || issuer.Err? || actions.Err? || delegable.Err? || depth.Err? || parent.Err? then Err(Failed)
    else if notBefore.Err? || notBefore.value.None? || expires.Err? || revoked.Err? then Err(Failed)
    else
      Ok(Grant(id, subject.value, issuer.value, actions.value, ResourceAt(d), delegable.value, depth.value,
               parent.value, notBefore.value.value, expires.value, revoked.value, TextAt(d, PolicyVersion)))
  }

  predicate HasId(d: Document, name: Name)
  {
    name in d && d[name].Bytes? && |d[name].bytes| == 16
  }

  predicate HasKind(d: Document, name: Name)
  {
    name in d && d[name].Text?
    && d[name].text in {"user", "creature", "node", "service", "workload", "module_publisher"}
  }

  predicate HasNames(d: Document, name: Name)
  {
    && name in d && d[name].Object? && "names" in d[name].members && d[name].members["names"].Array?
    && forall v :: v in d[name].members["names"].items ==> v.Text?
  }

  predicate Absent(d: Document, name: Name)
  {
    name !in d || d[name].Null?
  }

  /** Exactly the documents that can be read: subject and issuer of a known kind with an
      identifier, two lists of names, a depth in range and a start; parent, expiry and
      revocation may be missing and are of their type if not. */
  lemma ReadableIff(id: Id, d: Document)
    ensures Stored(id, d).Ok? <==>
            && HasKind(d, SubjectKindName) && HasId(d, SubjectId) && HasKind(d, IssuerKindName) && HasId(d, IssuerId)
            && HasNames(d, Actions) && HasNames(d, DelegableActions)
            && MaxDepth in d && d[MaxDepth].Integer? && 0 <= d[MaxDepth].value < 0x1_0000_0000
            && NotBefore in d && d[NotBefore].Integer?
            && (Absent(d, ParentId) || HasId(d, ParentId))
            && (Absent(d, ExpiresAt) || d[ExpiresAt].Integer?) && (Absent(d, RevokedAt) || d[RevokedAt].Integer?)
    ensures Stored(id, d).Err? ==> Stored(id, d).error == Failed
  {
    hide Truncated, KindOf, AllTexts;
    KnownKinds(TextAt(d, SubjectKindName));
    KnownKinds(TextAt(d, IssuerKindName));
    NamesReadable(d, Actions);
    NamesReadable(d, DelegableActions);
    hide HasNames, NamesAt;
  }

  lemma NamesReadable(d: Document, name: Name)
    ensures NamesAt(d, name).Ok? <==> HasNames(d, name)
  {
    if HasNames(d, name) {
      var items := d[name].members["names"].items;
      assert forall i :: 0 <= i < |items| ==> items[i] in items;
    }
  }

  lemma KnownKinds(text: string)
    ensures KindOf(text, KINDS).Some? <==> text in {"user", "creature", "node", "service", "workload", "module_publisher"}
  {
    KindFound(text, KINDS);
    hide KindOf;
    if text in {"user", "creature", "node", "service", "workload", "module_publisher"} {
      assert text == Spelling(KINDS[0]) || text == Spelling(KINDS[1]) || text == Spelling(KINDS[2])
             || text == Spelling(KINDS[3]) || text == Spelling(KINDS[4]) || text == Spelling(KINDS[5]);
    }
  }

  lemma {:induction false} KindFound(text: string, kinds: seq<SubjectKind>)
    ensures KindOf(text, kinds).Some? ==> Spelling(KindOf(text, kinds).value) == text
    ensures KindOf(text, kinds).None? ==> forall i :: 0 <= i < |kinds| ==> Spelling(kinds[i]) != text
    decreases |kinds|
  {
    hide Spelling;
    if kinds != [] && Spelling(kinds[0]) != text {
      KindFound(text, kinds[1..]);
      assert forall i :: 0 < i < |kinds| ==> kinds[i] == kinds[1..][i - 1];
    }
  }

  lemma TimeSurvives(millis: int)
    ensures Truncated(millis * 1_000, 1_000) == millis
  {
    if millis < 0 {
      assert -(millis * 1_000) == (-millis) * 1_000;
    }
  }

  lemma TimesSurvive(g: Grant)
    requires Fields(g).Some?
    ensures var d := Fields(g).value;
            && TimeAt(d, NotBefore) == Ok(Some(g.notBefore))
            && TimeAt(d, ExpiresAt) == Ok(g.expires)
            && TimeAt(d, RevokedAt) == Ok(g.revoked)
  {
    hide Truncated;
    TimeSurvives(g.notBefore);
    if g.expires.Some? {
      TimeSurvives(g.expires.value);
    }
    if g.revoked.Some? {
      TimeSurvives(g.revoked.value);
    }
  }

  lemma {:induction false} KindSurvives(kind: SubjectKind, kinds: seq<SubjectKind>)
    requires kind in kinds
    ensures KindOf(Spelling(kind), kinds) == Some(kind)
    decreases |kinds|
  {
    SpelledApart();
    hide Spelling;
    if kinds[0] != kind {
      KindSurvives(kind, kinds[1..]);
    }
  }

  lemma EveryKind(kind: SubjectKind)
    ensures kind in KINDS
  {
    match kind
    case User => assert KINDS[0] == kind;
    case Creature => assert KINDS[1] == kind;
    case Node => assert KINDS[2] == kind;
    case Service => assert KINDS[3] == kind;
    case Workload => assert KINDS[4] == kind;
    case ModulePublisher => assert KINDS[5] == kind;
  }

  /** No two kinds are spelled alike. */
  lemma SpelledApart()
    ensures forall a, b :: Spelling(a) == Spelling(b) ==> a == b
  {
    forall a, b | Spelling(a) == Spelling(b) ensures a == b {
      assert |Spelling(a)| == |Spelling(b)| && Spelling(a)[0] == Spelling(b)[0];
    }
  }

  lemma NamesSurvive(d: Document, name: Name, names: set<string>)
    requires name in d && d[name] == NameDocument(names)
    ensures NamesAt(d, name) == Ok(names)
  {
    var sorted := Sorted(names);
    var read := NamesIn(Texts(sorted));
    forall n ensures n in read <==> n in names {
      SortedHolds(names, n);
      if n in sorted {
        var i :| 0 <= i < |sorted| && sorted[i] == n;
        assert Texts(sorted)[i].text == n;
      }
    }
    assert read == names;
  }

  lemma SubjectsSurvive(g: Grant)
    requires Fields(g).Some?
    ensures SubjectAt(Fields(g).value, SubjectKindName, SubjectId) == Ok(g.subject)
    ensures SubjectAt(Fields(g).value, IssuerKindName, IssuerId) == Ok(g.issuer)
  {
    hide KindOf, Spelling, Time, Fits;
    EveryKind(g.subject.kind);
    EveryKind(g.issuer.kind);
    KindSurvives(g.subject.kind, KINDS);
    KindSurvives(g.issuer.kind, KINDS);
  }

  lemma NameSetsSurvive(g: Grant)
    requires Fields(g).Some?
    ensures NamesAt(Fields(g).value, Actions) == Ok(g.actions)
    ensures NamesAt(Fields(g).value, DelegableActions) == Ok(g.delegable)
  {
    hide NamesAt, NameDocument, Spelling, Time, Fits;
    NamesSurvive(Fields(g).value, Actions, g.actions);
    NamesSurvive(Fields(g).value, DelegableActions, g.delegable);
  }

  lemma OthersSurvive(g: Grant)
    requires g.maxDepth <= MAX_U32 && Fields(g).Some?
    ensures var d := Fields(g).value;
            && DepthAt(d) == Ok(g.maxDepth) && UuidAt(d, ParentId) == Ok(g.parent)
            && ResourceAt(d) == g.resource && TextAt(d, PolicyVersion) == g.policyVersion
  {
    hide NameDocument, Spelling, Time, Fits;
  }

  /** Every grant whose times can be stored is read back unchanged. */
  lemma GrantRoundTrip(g: Grant)
    requires g.maxDepth <= MAX_U32 && Fields(g).Some?
    ensures Stored(g.id, Fields(g).value) == Ok(g)
  {
    TimesSurvive(g);
    SubjectsSurvive(g);
    NameSetsSurvive(g);
    OthersSurvive(g);
    hide Fields, TimeAt, SubjectAt, NamesAt, DepthAt, UuidAt, ResourceAt, TextAt;
  }
}
