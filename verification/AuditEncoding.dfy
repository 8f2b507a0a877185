/** The canonical JSON of a row (`engine/audit.py`) meets what the chain needs. */
module AuditEncoding {
  import Text
  import opened Json
  import opened AuditChain

  /** Rendering of instants: distinct ones differ, and `isoformat` only uses digits
      and punctuation that JSON leaves alone. */
  ghost predicate ValidClock(iso: int -> string) {
    && (forall t :: |iso(t)| >= 2 && PlainText(iso(t)) && Text.Lacks(iso(t), '{'))
    && (forall t, u :: iso(t) == iso(u) ==> t == u)
  }

  predicate PlainText(s: string) {
    forall i | 0 <= i < |s| :: Plain(s[i])
  }

  function IdJson(id: OptionalId): Json {
    match id
    case NoId => Null
    case SomeId(s) => Str(s)
  }

  function TextJson(t: OptionalText): Json {
    match t
    case NoText => Null
    case SomeText(s) => Str(s)
  }

  /** The members after created_at, in key order. */
  function LaterMembers(d: RowData): seq<Member> {
    [Member("details", d.details), Member("memory_id", IdJson(d.memoryId)),
     Member("memory_type", TextJson(d.memoryType)),
     Member("operation", Str(d.operation)), Member("org_id", Str(d.orgId)), Member("user_id", IdJson(d.userId))]
  }

  /** `row_data` with its keys sorted. */
  function RowJson(iso: int -> string, d: RowData): Json {
    Obj([Member("agent_id", IdJson(d.agentId)), Member("created_at", Str(iso(d.createdAt)))] + LaterMembers(d))
  }

  /** json.dumps(data, sort_keys=True, separators=(",", ":")) */
  function Canonical(iso: int -> string, d: RowData): string {
    Encode(RowJson(iso, d))
  }

  const HEAD: string := "{\"agent_id\":"
  const MIDDLE: string := ",\"created_at\":\""

  lemma FirstMember(m: Member, rest: seq<Member>, first: bool)
    ensures Members([m] + rest, first) == Separator(first) + (MemberText(m) + Members(rest, false))
  {
    assert ([m] + rest)[1..] == rest;
  }

  lemma PlainKey(key: string, value: Json)
    requires PlainText(key)
    ensures MemberText(Member(key, value)) == ("\"" + (key + "\"")) + (":" + Encode(value))
  {
    PlainChars(key);
  }

  lemma Regroup(agent: string, instant: string, tail: string)
    ensures "{" + ("" + ((("\"" + ("agent_id" + "\"")) + (":" + agent))
        + ("," + ((("\"" + ("created_at" + "\"")) + (":" + ("\"" + (instant + "\"")))) + tail))))
      == HEAD + (agent + (MIDDLE + (instant + ("\"" + tail))))
  {
  }

  lemma TwoMembers(a: string, first: Json, b: string, instant: string, later: seq<Member>)
    requires PlainText(a) && PlainText(b) && PlainText(instant)
    ensures Members([Member(a, first), Member(b, Str(instant))] + later, true)
      == "" + ((("\"" + (a + "\"")) + (":" + Encode(first)))
        + ("," + ((("\"" + (b + "\"")) + (":" + ("\"" + (instant + "\"")))) + Members(later, false))))
  {
    var m, n := Member(a, first), Member(b, Str(instant));
    assert [m, n] + later == [m] + ([n] + later);
    FirstMember(m, [n] + later, true);
    FirstMember(n, later, false);
    PlainKey(a, first);
    PlainKey(b, Str(instant));
    PlainChars(instant);
  }

  lemma ObjectBegins(agent: Json, instant: string, later: seq<Member>)
    requires PlainText(instant)
    ensures "{" + Members([Member("agent_id", agent), Member("created_at", Str(instant))] + later, true)
      == HEAD + (Encode(agent) + (MIDDLE + (instant + ("\"" + Members(later, false)))))
  {
    TwoMembers("agent_id", agent, "created_at", instant, later);
    Regroup(Encode(agent), instant, Members(later, false));
  }

  /** How the text of a row begins. */
  lemma CanonicalBegins(iso: int -> string, d: RowData) returns (more: string)
    requires ValidClock(iso)
    ensures Canonical(iso, d) == HEAD + (Encode(IdJson(d.agentId)) + (MIDDLE + (iso(d.createdAt) + more)))
  {
    ObjectBegins(IdJson(d.agentId), iso(d.createdAt), LaterMembers(d));
    more := "\"" + Members(LaterMembers(d), false);
  }

  lemma CanonicalHasOneBrace(iso: int -> string, d: RowData)
    requires ValidClock(iso)
    ensures BraceOnlyInFront(Canonical(iso, d))
  {
    var more := CanonicalBegins(iso, d);
    var agent, tail := Encode(IdJson(d.agentId)), iso(d.createdAt) + more;
    assert |HEAD| == 12 && |MIDDLE| == 15 && HEAD[0] == '{';
    match d.agentId
    case NoId =>
      assert |agent| == 4;
      assert (HEAD + (agent + (MIDDLE + tail)))[32] == tail[1] == iso(d.createdAt)[1];
    case SomeId(id) =>
      UuidIsPlain(id);
      PlainChars(id);
      assert (HEAD + (agent + (MIDDLE + tail)))[32] == agent[20] == id[19];
  }

  lemma UuidIsPlain(id: Text.UuidText)
    ensures PlainText(id)
  {
  }

  // ----- what is hashed

  /** The order of sort_keys. */
  predicate Before(a: string, b: string) {
    b != "" && (a == "" || a[0] < b[0] || (a[0] == b[0] && Before(a[1..], b[1..])))
  }

  /** The members are the items of the dict, sorted by key. */
  ghost predicate AreSortedItems(members: seq<Member>, dict: map<string, Json>) {
    && (forall i | 0 < i < |members| :: Before(members[i - 1].key, members[i].key))
    && (forall m | m in members :: m.key in dict && dict[m.key] == m.value)
    && (forall key | key in dict :: exists i :: 0 <= i < |members| && members[i].key == key)
  }

  /** `row_data`; a missing id or type is null. */
  function RowDict(iso: int -> string, d: RowData): map<string, Json> {
    map["org_id" := Str(d.orgId),
        "operation" := Str(d.operation),
        "agent_id" := if d.agentId.NoId? then Null else Str(d.agentId.id),
        "user_id" := if d.userId.NoId? then Null else Str(d.userId.id),
        "memory_id" := if d.memoryId.NoId? then Null else Str(d.memoryId.id),
        "memory_type" := if d.memoryType.NoText? then Null else Str(d.memoryType.text),
        "details" := d.details,
        "created_at" := Str(iso(d.createdAt))]
  }

  /** What is hashed for a row is the compact JSON of `row_data` with sorted keys. */
  lemma CanonicalIs(iso: int -> string, d: RowData) returns (members: seq<Member>)
    ensures Canonical(iso, d) == Encode(Obj(members)) && AreSortedItems(members, RowDict(iso, d))
  {
    members := RowJson(iso, d).members;
    MembersAreSorted(iso, d);
    forall m | m in members
      ensures m.key in RowDict(iso, d) && RowDict(iso, d)[m.key] == m.value
    {
      var i :| 0 <= i < |members| && members[i] == m;
      MemberIsThere(iso, d, i);
    }
    forall key | key in RowDict(iso, d)
      ensures exists i :: 0 <= i < |members| && members[i].key == key
    {
      KeyIsThere(iso, d, key);
    }
  }

  lemma MemberKeys(iso: int -> string, d: RowData)
    ensures
      var ms := RowJson(iso, d).members;
      && |ms| == 8 && ms[0].key == "agent_id" && ms[1].key == "created_at" && ms[2].key == "details"
      && ms[3].key == "memory_id" && ms[4].key == "memory_type" && ms[5].key == "operation" && ms[6].key == "org_id"
      && ms[7].key == "user_id"
  {
  }

  lemma MembersAreSorted(iso: int -> string, d: RowData)
    ensures
      var ms := RowJson(iso, d).members;
      forall i | 0 < i < |ms| :: Before(ms[i - 1].key, ms[i].key)
  {
    MemberKeys(iso, d);
    SortedByKey(RowJson(iso, d).members);
  }

  lemma SortedByKey(ms: seq<Member>)
    requires |ms| == 8 && ms[0].key == "agent_id" && ms[1].key == "created_at" && ms[2].key == "details"
    requires ms[3].key == "memory_id" && ms[4].key == "memory_type" && ms[5].key == "operation"
    requires ms[6].key == "org_id" && ms[7].key == "user_id"
    ensures forall i | 0 < i < |ms| :: Before(ms[i - 1].key, ms[i].key)
  {
    KeysAreSorted();
  }

  lemma MemberIsThere(iso: int -> string, d: RowData, i: nat)
    requires i < |RowJson(iso, d).members|
    ensures
      var m, dict := RowJson(iso, d).members[i], RowDict(iso, d);
      m.key in dict && dict[m.key] == m.value
  {
    MemberKeys(iso, d);
    assert i in {0, 1, 2, 3, 4, 5, 6, 7};
  }

  lemma KeyIsThere(iso: int -> string, d: RowData, key: string)
    requires key in RowDict(iso, d)
    ensures exists i :: 0 <= i < |RowJson(iso, d).members| && RowJson(iso, d).members[i].key == key
  {
    MemberKeys(iso, d);
    var ms := RowJson(iso, d).members;
    var i := if key == "agent_id" then 0 else if key == "created_at" then 1 else if key == "details" then 2
      else if key == "memory_id" then 3 else if key == "memory_type" then 4 else if key == "operation" then 5
      else if key == "org_id" then 6 else 7;
    assert ms[i].key == key;
  }

  lemma KeysAreSorted()
    ensures Before("agent_id", "created_at") && Before("created_at", "details") && Before("details", "memory_id")
    ensures Before("memory_id", "memory_type") && Before("memory_type", "operation") && Before("operation", "org_id")
    ensures Before("org_id", "user_id")
  {
  }

  /** The canonical text determines the row data. */
  lemma CanonicalInjective(iso: int -> string, c: RowData, d: RowData)
    requires ValidClock(iso)
    requires Canonical(iso, c) == Canonical(iso, d)
    ensures c == d
  {
    EncodeInjective(RowJson(iso, c), RowJson(iso, d));
    var ms, ns := RowJson(iso, c).members, RowJson(iso, d).members;
    assert ms[0] == ns[0] && ms[1] == ns[1] && ms[2] == ns[2] && ms[3] == ns[3] && ms[4] == ns[4] && ms[5] == ns[5]
        && ms[6] == ns[6] && ms[7] == ns[7];
  }

  function JsonScheme(hash: string -> string, iso: int -> string): Scheme {
    Scheme(hash, (d: RowData) => Canonical(iso, d))
  }

  /** So chains of the real encoding bind their rows whatever their lengths: no
      canonical row is a digest followed by another canonical row. */
  lemma {:induction false} JsonSchemeIsValid(hash: string -> string, iso: int -> string)
    requires ValidClock(iso)
    requires forall x :: |hash(x)| == DIGEST_LENGTH
    ensures JsonScheme(hash, iso).Valid()
  {
    var scheme := JsonScheme(hash, iso);
    forall d
      ensures BraceOnlyInFront(scheme.encode(d))
    {
      CanonicalHasOneBrace(iso, d);
    }
    forall c, d | scheme.encode(c) == scheme.encode(d)
      ensures c == d
    {
      CanonicalInjective(iso, c, d);
    }
  }
}
