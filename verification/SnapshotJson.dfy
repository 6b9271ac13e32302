/** The JSON form of persisted snapshots. */
module SnapshotJson {
  import opened Basics
  import opened Keys
  import opened StateNodes
  import opened Configurations
  import opened StateValues
  import opened Json
  import opened JsonTexts
  import opened JsonRoundTrips
  import opened Actions
  import opened Microsteps
  import opened Paths
  import opened Persistence
  import opened Restoring
  import F = Finals

  // ---- state values ----

  /** The document a state value is written as. */
  function ValueDoc(v: StateValue): JsonValue
    decreases v, 1, 0
  {
    if v.Empty() then Null
    else if v.IsLeaf() then String(v.leaf)
    else Object(BranchDocs(v, Sorted(v.branches.Keys)))
  }

  function BranchDocs(v: StateValue, keys: seq<string>): (members: seq<Member>)
    requires forall k :: k in keys ==> k in v.branches
    ensures |members| == |keys|
    decreases v, 0, |keys|
  {
    if keys == [] then [] else [Member(keys[0], ValueDoc(v.branches[keys[0]]))] + BranchDocs(v, keys[1..])
  }

  lemma {:induction false} BranchDocAt(v: StateValue, keys: seq<string>, i: nat)
    requires (forall k :: k in keys ==> k in v.branches) && i < |keys|
    ensures keys[i] in v.branches && BranchDocs(v, keys)[i] == Member(keys[i], ValueDoc(v.branches[keys[i]]))
  {
    assert keys[i] in keys;
    if i > 0 { BranchDocAt(v, keys[1..], i - 1); }
  }

  method StateValueJson(v: StateValue) returns (r: string)
    ensures r == Written(ValueDoc(v))
    decreases v, 1
  {
    if v.Empty() {
      r := "null";
    } else if v.IsLeaf() {
      r := JsonString(v.leaf);
    } else {
      r := BranchesJson(v, Sorted(v.branches.Keys), ValueDoc(v));
    }
  }

  method MemberText(key: string, value: string) returns (part: string)
    ensures part == Quoted(key) + ":" + value
  {
    part := JsonString(key);
    part := part + ":" + value;
  }

  /** The loop over the branches; `doc` is the document of `v`. */
  method BranchesJson(v: StateValue, keys: seq<string>, ghost doc: JsonValue) returns (r: string)
    requires (forall k :: k in keys ==> k in v.branches) && doc == Object(BranchDocs(v, keys))
    ensures r == Written(doc)
    decreases v, 0
  {
    r := "{";
    var first := true;
    ghost var whole := "{" + WrittenMembers(doc, 0);
    WritingStart(r, |keys|, WrittenMembers(doc, 0));
    for i := 0 to |keys|
      invariant first <==> i == 0
      invariant Writing(r, i, |keys|, WrittenMembers(doc, i), whole)
    {
      BranchDocAt(v, keys, i);
      var value := StateValueJson(v.branches[keys[i]]);
      var part := MemberText(keys[i], value);
      WritingNext(r, i, |keys|, part, WrittenMembers(doc, i), WrittenMembers(doc, i + 1), whole);
      r := AppendPart(r, first, part);
      first := false;
    }
    WritingDone(r, |keys|, whole);
    r := r + "}";
  }

  /** The state value a document stands for. */
  function ValueIn(doc: JsonValue): StateValue
    decreases doc, 1, 0
  {
    if doc.String? then Leaf(doc.str)
    else if doc.Object? then BranchesOf(BranchesIn(doc, |doc.members|))
    else EMPTY_VALUE
  }

  /** The branches in the first `k` members; a key seen before keeps its value. */
  function BranchesIn(doc: JsonValue, k: nat): map<string, StateValue>
    requires doc.Object? && k <= |doc.members|
    decreases doc, 0, k
  {
    if k == 0 then map[]
    else
      var m, member := BranchesIn(doc, k - 1), doc.members[k - 1];
      if member.key in m then m else m[member.key := ValueIn(member.value)]
  }

  method JsonToStateValue(doc: JsonValue) returns (v: StateValue)
    ensures v == ValueIn(doc)
    decreases doc
  {
    if doc.String? { return Leaf(doc.str); }
    if !doc.Object? { return EMPTY_VALUE; }
    var branches: map<string, StateValue> := map[];
    for i := 0 to |doc.members|
      invariant branches == BranchesIn(doc, i)
    {
      var sub := JsonToStateValue(doc.members[i].value);
      if doc.members[i].key !in branches { branches := branches[doc.members[i].key := sub]; }
    }
    return BranchesOf(branches);
  }

  /** A state value is recovered from its document exactly if it is proper. */
  lemma {:induction false} ValueDocRoundTrip(v: StateValue)
    ensures ValueIn(ValueDoc(v)) == v <==> Proper(v)
    decreases v
  {
    if !v.Empty() && !v.IsLeaf() {
      var read := AllBranchesRead(v);
      forall k | k in v.branches ensures read[k] == v.branches[k] <==> Proper(v.branches[k]) {
        ValueDocRoundTrip(v.branches[k]);
      }
      SameBranches(v, read);
    }
  }

  lemma {:induction false} AllBranchesRead(v: StateValue) returns (read: map<string, StateValue>)
    requires !v.Empty() && !v.IsLeaf()
    ensures ValueIn(ValueDoc(v)) == BranchesOf(read) && read.Keys == v.branches.Keys && read.Keys != {}
    ensures forall k :: k in v.branches ==> read[k] == ValueIn(ValueDoc(v.branches[k]))
  {
    var keys := Sorted(v.branches.Keys);
    BranchesRead(v, |keys|);
    read := BranchesIn(ValueDoc(v), |keys|);
    assert keys[..|keys|] == keys;
    ProperBranches(v);
    SameKeys(read, v.branches, keys);
  }

  lemma SameKeys(m: map<string, StateValue>, n: map<string, StateValue>, keys: seq<string>)
    requires (forall k :: k in m <==> k in keys) && (forall k :: k in keys <==> k in n) && exists k :: k in n
    ensures m.Keys == n.Keys && m.Keys != {}
  {
    var k :| k in n;
    assert k in m.Keys;
  }

  lemma {:induction false} SameBranches(v: StateValue, read: map<string, StateValue>)
    requires read.Keys == v.branches.Keys && read.Keys != {}
    requires forall k :: k in read ==> (read[k] == v.branches[k] <==> Proper(v.branches[k]))
    ensures BranchesOf(read) == v <==> Proper(v)
  {
    var k :| k in read;
    if Proper(v) { assert read == v.branches; }
  }

  /** `read` has the branches of `v` with these keys, each as it comes back from its document. */
  ghost predicate ReadFrom(read: map<string, StateValue>, v: StateValue, keys: seq<string>) {
    && (forall key :: key in read <==> key in keys)
    && (forall key :: key in read ==> key in v.branches && read[key] == ValueIn(ValueDoc(v.branches[key])))
  }

  lemma ReadOneMore(read: map<string, StateValue>, v: StateValue, keys: seq<string>, key: string)
    requires ReadFrom(read, v, keys) && key in v.branches
    ensures ReadFrom(read[key := ValueIn(ValueDoc(v.branches[key]))], v, keys + [key])
  {}

  lemma {:induction false} BranchesRead(v: StateValue, k: nat)
    requires !v.Empty() && !v.IsLeaf() && k <= |Sorted(v.branches.Keys)|
    ensures ReadFrom(BranchesIn(ValueDoc(v), k), v, Sorted(v.branches.Keys)[..k])
  {
    if k > 0 {
      var keys := Sorted(v.branches.Keys);
      BranchesRead(v, k - 1);
      ValueDocMember(v, k - 1);
      NotBefore(keys, k - 1);
      BranchesInNext(ValueDoc(v), k, keys[k - 1]);
      ReadOneMore(BranchesIn(ValueDoc(v), k - 1), v, keys[..k - 1], keys[k - 1]);
      TakeNext(keys, k - 1);
    }
  }

  lemma {:induction false} ValueDocMember(v: StateValue, i: nat)
    requires !v.Empty() && !v.IsLeaf() && i < |Sorted(v.branches.Keys)|
    ensures var key := Sorted(v.branches.Keys)[i];
            key in v.branches && ValueDoc(v).members[i] == Member(key, ValueDoc(v.branches[key]))
  {
    BranchDocAt(v, Sorted(v.branches.Keys), i);
  }

  lemma BranchesInNext(doc: JsonValue, k: nat, key: string)
    requires doc.Object? && 0 < k <= |doc.members| && doc.members[k - 1].key == key && key !in BranchesIn(doc, k - 1)
    ensures BranchesIn(doc, k) == BranchesIn(doc, k - 1)[key := ValueIn(doc.members[k - 1].value)]
  {}

  lemma NotBefore<T>(s: seq<T>, i: nat)
    requires NoDup(s) && i < |s|
    ensures s[i] !in s[..i]
  {}

  // ---- histories ----

  function IdsDoc(ids: seq<string>): JsonValue {
    Array(seq(|ids|, i requires 0 <= i < |ids| => String(ids[i])))
  }

  function HistoryDocs(h: map<string, seq<string>>, keys: seq<string>): (members: seq<Member>)
    requires forall k :: k in keys ==> k in h
    ensures |members| == |keys|
  {
    if keys == [] then [] else [Member(keys[0], IdsDoc(h[keys[0]]))] + HistoryDocs(h, keys[1..])
  }

  function HistoryDoc(h: map<string, seq<string>>): JsonValue { Object(HistoryDocs(h, Sorted(h.Keys))) }

  lemma {:induction false} HistoryDocAt(h: map<string, seq<string>>, keys: seq<string>, i: nat)
    requires (forall k :: k in keys ==> k in h) && i < |keys|
    ensures keys[i] in h && HistoryDocs(h, keys)[i] == Member(keys[i], IdsDoc(h[keys[i]]))
  {
    assert keys[i] in keys;
    if i > 0 { HistoryDocAt(h, keys[1..], i - 1); }
  }

  method IdsJson(ids: seq<string>) returns (r: string)
    ensures r == Written(IdsDoc(ids))
  {
    ghost var doc := IdsDoc(ids);
    r := "[";
    var first := true;
    ghost var whole := "[" + WrittenItems(doc, 0);
    WritingStart(r, |ids|, WrittenItems(doc, 0));
    for i := 0 to |ids|
      invariant first <==> i == 0
      invariant Writing(r, i, |ids|, WrittenItems(doc, i), whole)
    {
      var item := JsonString(ids[i]);
      assert doc.items[i] == String(ids[i]) && Written(doc.items[i]) == item;
      WritingNext(r, i, |ids|, item, WrittenItems(doc, i), WrittenItems(doc, i + 1), whole);
      r := AppendPart(r, first, item);
      first := false;
    }
    WritingDone(r, |ids|, whole);
    r := r + "]";
  }

  method HistoryJson(h: map<string, seq<string>>, keys: seq<string>, ghost doc: JsonValue) returns (r: string)
    requires (forall k :: k in keys ==> k in h) && doc == Object(HistoryDocs(h, keys))
    ensures r == WrittenMembers(doc, 0)
  {
    r := "";
    var first := true;
    WritingStart(r, |keys|, WrittenMembers(doc, 0));
    assert "" + WrittenMembers(doc, 0) == WrittenMembers(doc, 0);
    for i := 0 to |keys|
      invariant first <==> i == 0
      invariant Writing(r, i, |keys|, WrittenMembers(doc, i), WrittenMembers(doc, 0))
    {
      HistoryDocAt(h, keys, i);
      var ids := IdsJson(h[keys[i]]);
      var part := MemberText(keys[i], ids);
      WritingNext(r, i, |keys|, part, WrittenMembers(doc, i), WrittenMembers(doc, i + 1), WrittenMembers(doc, 0));
      r := AppendPart(r, first, part);
      first := false;
    }
    WritingDone(r, |keys|, WrittenMembers(doc, 0));
  }

  function TextOf(v: JsonValue): string { if v.String? then v.str else "" }

  function ItemsOf(v: JsonValue): seq<JsonValue> { if v.Array? then v.items else [] }

  function Texts(items: seq<JsonValue>): seq<string> {
    seq(|items|, i requires 0 <= i < |items| => TextOf(items[i]))
  }

  /** The ids in the first `k` members; members with the same key are run together. */
  function HistoryIn(members: seq<Member>, k: nat): map<string, seq<string>>
    requires k <= |members|
  {
    if k == 0 then map[]
    else
      var h, m := HistoryIn(members, k - 1), members[k - 1];
      h[m.key := (if m.key in h then h[m.key] else []) + Texts(ItemsOf(m.value))]
  }

  lemma {:induction false} TextsOfIds(ids: seq<string>)
    ensures Texts(ItemsOf(IdsDoc(ids))) == ids
  {}

  /** `read` has the histories in `h` with these keys. */
  ghost predicate HistoriesFrom(read: map<string, seq<string>>, h: map<string, seq<string>>, keys: seq<string>) {
    && (forall j :: j in read <==> j in keys)
    && (forall j :: j in read ==> j in h && read[j] == h[j])
  }

  lemma OneMoreHistory(read: map<string, seq<string>>, h: map<string, seq<string>>, keys: seq<string>, key: string)
    requires HistoriesFrom(read, h, keys) && key in h && key !in keys
    ensures HistoriesFrom(read[key := (if key in read then read[key] else []) + h[key]], h, keys + [key])
  {
    assert [] + h[key] == h[key];
  }

  lemma {:induction false} HistoryRead(h: map<string, seq<string>>, keys: seq<string>, k: nat)
    requires (forall j :: j in keys ==> j in h) && NoDup(keys) && k <= |keys|
    ensures HistoriesFrom(HistoryIn(HistoryDocs(h, keys), k), h, keys[..k])
  {
    if k > 0 {
      HistoryRead(h, keys, k - 1);
      HistoryDocAt(h, keys, k - 1);
      TakeNext(keys, k - 1);
      NotBefore(keys, k - 1);
      TextsOfIds(h[keys[k - 1]]);
      OneMoreHistory(HistoryIn(HistoryDocs(h, keys), k - 1), h, keys[..k - 1], keys[k - 1]);
    }
  }

  // ---- snapshots ----

  function StatusName(s: F.Status): string {
    match s
    case Active => "active"
    case Done => "done"
    case Error => "error"
    case Stopped => "stopped"
  }

  function StatusFromName(s: string): F.Status {
    if s == "done" then F.Done else if s == "error" then F.Error else if s == "stopped" then F.Stopped else F.Active
  }

  /** How a context is written and read, if the machine knows. */
  datatype ContextCodec = ContextCodec(toJson: Context -> string, fromJson: string -> Context)

  const NO_CODEC := "JSON persistence requires a context codec (setContextCodec / XSTATE_CONTEXT_FIELDS)"

  function SnapshotDoc(ps: PersistedSnapshot, ctx: JsonValue): JsonValue {
    Object([Member("status", String(StatusName(ps.status))), Member("value", ValueDoc(ps.value)),
            Member("context", ctx), Member("historyValue", HistoryDoc(ps.historyValue))])
  }

  const NO_CHILDREN :=
    "JSON persistence with live child actors is not supported in v1; use the structured getPersistedSnapshot() form"

  const NO_CONTEXT := "persistedToJson: context type mismatch"

  method PersistedToJson(ps: PersistedSnapshot, codec: Option<ContextCodec>, ghost ctx: JsonValue)
    returns (r: Result<string, string>)
    requires codec.Some? && ps.context.Some? ==> codec.value.toJson(ps.context.value) == Written(ctx)
    ensures r == if codec.None? then Err(NO_CODEC)
                 else if ps.children != map[] then Err(NO_CHILDREN)
                 else if ps.context.None? then Err(NO_CONTEXT)
                 else Ok(Written(SnapshotDoc(ps, ctx)))
  {
    if codec.None? { return Err(NO_CODEC); }
    if |ps.children| != 0 { return Err(NO_CHILDREN); }
    if ps.context.None? { return Err(NO_CONTEXT); }
    var value := StateValueJson(ps.value);
    var hist := HistoryJson(ps.historyValue, Sorted(ps.historyValue.Keys), HistoryDoc(ps.historyValue));
    var out := STATUS_PART + StatusName(ps.status);
    out := out + VALUE_PART + value;
    out := out + CONTEXT_PART + codec.value.toJson(ps.context.value);
    out := out + HISTORY_PART + hist + "}}";
    SnapshotWritten(ps, ctx);
    r := Ok(out);
  }

  const STATUS_PART := "{\"status\":\""
  const VALUE_PART := "\",\"value\":"
  const CONTEXT_PART := ",\"context\":"
  const HISTORY_PART := ",\"historyValue\":{"

  /** The text of the parts after the status. */
  lemma {:induction false} LaterParts(doc: JsonValue, value: JsonValue, ctx: JsonValue, hist: JsonValue)
    requires MemberIs(doc, 1, "value", value) && MemberIs(doc, 2, "context", ctx)
    requires MemberIs(doc, 3, "historyValue", hist) && hist.Object?
    ensures "\"," + WrittenMembers(doc, 1) + "}" == VALUE_PART + Written(value)
              + (CONTEXT_PART + Written(ctx) + (HISTORY_PART + WrittenMembers(hist, 0) + "}}"))
  {
    HistoryPart(doc, "historyValue", hist);
    ContextPart(doc, ctx);
    ValuePart(doc, value);
  }

  /** The concatenated text is that of the document. */
  lemma {:induction false} SnapshotWritten(ps: PersistedSnapshot, ctx: JsonValue)
    ensures Written(SnapshotDoc(ps, ctx)) ==
      STATUS_PART + StatusName(ps.status) + VALUE_PART + Written(ValueDoc(ps.value)) + CONTEXT_PART + Written(ctx)
      + HISTORY_PART + WrittenMembers(HistoryDoc(ps.historyValue), 0) + "}}"
  {
    var doc, value, hist := SnapshotDoc(ps, ctx), ValueDoc(ps.value), HistoryDoc(ps.historyValue);
    LaterParts(doc, value, ctx, hist);
    QuotedStatus(ps.status);
    StatusPart(doc, StatusName(ps.status));
    Flat(STATUS_PART + StatusName(ps.status), VALUE_PART, Written(value), CONTEXT_PART, Written(ctx),
         HISTORY_PART, WrittenMembers(hist, 0), "}}");
  }

  lemma {:induction false} QuotedStatus(s: F.Status)
    ensures Quoted(StatusName(s)) == "\"" + StatusName(s) + "\""
  {
    QuotedName(StatusName(s));
  }

  ghost predicate MemberIs(doc: JsonValue, i: nat, key: string, value: JsonValue) {
    doc.Object? && |doc.members| == 4 && i < 4 && doc.members[i] == Member(key, value)
  }

  lemma {:induction false} HistoryPart(doc: JsonValue, key: string, hist: JsonValue)
    requires MemberIs(doc, 3, key, hist) && hist.Object? && key == "historyValue"
    ensures "," + WrittenMembers(doc, 3) + "}" == HISTORY_PART + WrittenMembers(hist, 0) + "}}"
  {
    QuotedHistory(key);
    MembersUnfold(doc, 3);
    LastPart(Quoted(key), WrittenMembers(hist, 0), WrittenMembers(doc, 3));
  }

  lemma LastPart(key: string, h: string, w: string)
    requires HISTORY_PART == "," + key + ":{" && w == key + ":" + ("{" + h + "}") + "" + ""
    ensures "," + w + "}" == HISTORY_PART + h + "}}"
  {}

  lemma {:induction false} ContextPart(doc: JsonValue, ctx: JsonValue)
    requires MemberIs(doc, 2, "context", ctx)
    ensures "," + WrittenMembers(doc, 2) + "}" == CONTEXT_PART + Written(ctx) + ("," + WrittenMembers(doc, 3) + "}")
  {
    QuotedContext();
    MembersUnfold(doc, 2);
    Part(",", Quoted("context"), CONTEXT_PART, Written(ctx), WrittenMembers(doc, 3), WrittenMembers(doc, 2));
  }

  lemma {:induction false} ValuePart(doc: JsonValue, value: JsonValue)
    requires MemberIs(doc, 1, "value", value)
    ensures "\"," + WrittenMembers(doc, 1) + "}" == VALUE_PART + Written(value) + ("," + WrittenMembers(doc, 2) + "}")
  {
    QuotedValue();
    MembersUnfold(doc, 1);
    Part("\",", Quoted("value"), VALUE_PART, Written(value), WrittenMembers(doc, 2), WrittenMembers(doc, 1));
  }

  lemma {:induction false} StatusPart(doc: JsonValue, name: string)
    requires MemberIs(doc, 0, "status", String(name)) && Quoted(name) == "\"" + name + "\""
    ensures Written(doc) == STATUS_PART + name + ("\"," + WrittenMembers(doc, 1) + "}")
  {
    QuotedStatusKey();
    MembersUnfold(doc, 0);
    FirstPart(Quoted("status"), name, WrittenMembers(doc, 1), WrittenMembers(doc, 0));
  }

  /** A member in the middle, after what ends the one before it. */
  lemma Part(before: string, key: string, part: string, value: string, next: string, w: string)
    requires part == before + key + ":" && w == key + ":" + value + "," + next
    ensures before + w + "}" == part + value + ("," + next + "}")
  {}

  lemma FirstPart(key: string, name: string, next: string, w: string)
    requires key == "\"status\"" && w == key + ":" + ("\"" + name + "\"") + "," + next
    ensures "{" + w + "}" == STATUS_PART + name + ("\"," + next + "}")
  {}

  lemma {:induction false} QuotedHistory(key: string)
    requires key == "historyValue"
    ensures HISTORY_PART == "," + Quoted(key) + ":{"
  {
    QuotedName(key);
    HistoryKey(key);
    Bracketed(key);
  }

  lemma HistoryKey(key: string)
    requires key == "historyValue"
    ensures HISTORY_PART == ",\"" + key + "\":{"
  {}

  lemma Bracketed(key: string)
    ensures "," + ("\"" + key + "\"") + ":{" == ",\"" + key + "\":{"
  {}

  lemma {:induction false} QuotedContext()
    ensures CONTEXT_PART == "," + Quoted("context") + ":"
  {
    QuotedName("context");
  }

  lemma {:induction false} QuotedValue()
    ensures VALUE_PART == "\"," + Quoted("value") + ":"
  {
    QuotedName("value");
  }

  lemma {:induction false} QuotedStatusKey()
    ensures Quoted("status") == "\"status\""
  {
    QuotedName("status");
  }

  lemma MembersUnfold(doc: JsonValue, i: nat)
    requires doc.Object? && i < |doc.members|
    ensures WrittenMembers(doc, i) == Quoted(doc.members[i].key) + ":" + Written(doc.members[i].value)
                                      + (if i + 1 < |doc.members| then "," else "") + WrittenMembers(doc, i + 1)
  {}

  lemma {:induction false} Flat(s: string, t: string, u: string, v: string, w: string, x: string, y: string, z: string)
    ensures s + t + u + v + w + x + y + z == s + (t + u + (v + w + (x + y + z)))
  {
    AppendAfter(s + t + u + v + w, x, y);
    AppendAfter(s + t + u + v + w, x + y, z);
    AppendAfter(s + t + u, v, w);
    AppendAfter(s + t + u, v + w, x + y + z);
    AppendAfter(s, t, u);
    AppendAfter(s, t + u, v + w + (x + y + z));
  }

  lemma {:induction false} QuotedName(s: string)
    requires forall i :: 0 <= i < |s| ==> ('a' <= s[i] <= 'z' || 'A' <= s[i] <= 'Z')
    ensures Quoted(s) == "\"" + s + "\""
  {
    EscapedName(s);
  }

  lemma {:induction false} EscapedName(s: string)
    requires forall i :: 0 <= i < |s| ==> ('a' <= s[i] <= 'z' || 'A' <= s[i] <= 'Z')
    ensures Escaped(s) == s
  {
    if s != "" { EscapedName(s[1..]); }
  }

  /** The first member with this key. */
  function Find(members: seq<Member>, key: string): Option<JsonValue> {
    if members == [] then None else if members[0].key == key then Some(members[0].value) else Find(members[1..], key)
  }

  /**
   What a document says; whatever is missing or of the wrong kind is at its default, and outputs, errors and children
   are never there.
   */
  function SnapshotIn(members: seq<Member>, codec: ContextCodec, blank: Context): PersistedSnapshot {
    var status, value := Find(members, "status"), Find(members, "value");
    var ctx, hist := Find(members, "context"), Find(members, "historyValue");
    PersistedSnapshot(
      if status.Some? && status.value.String? then StatusFromName(status.value.str) else F.Active,
      None, None,
      if value.Some? then ValueIn(value.value) else EMPTY_VALUE,
      Some(if ctx.Some? then codec.fromJson(Written(ctx.value)) else blank),
      if hist.Some? && hist.value.Object? then HistoryIn(hist.value.members, |hist.value.members|) else map[],
      map[])
  }

  method ParseSnapshotJson(json: string, codec: Option<ContextCodec>, blank: Context)
    returns (r: Result<PersistedSnapshot, string>)
    ensures codec.None? ==> r == Err(NO_CODEC)
    ensures codec.Some? ==>
      match ParseDocument(json)
      case Err(e) => r == Err(e)
      case Ok(doc) =>
        if !doc.Object? then r == Err("snapshot JSON: expected an object")
        else r == Ok(SnapshotIn(doc.members, codec.value, blank))
  {
    if codec.None? { return Err(NO_CODEC); }
    var doc := ParseJson(json);
    if doc.Err? { return Err(doc.error); }
    if !doc.value.Object? { return Err("snapshot JSON: expected an object"); }
    var members := doc.value.members;
    var ps := PersistedSnapshot(F.Active, None, None, EMPTY_VALUE, Some(blank), map[], map[]);
    var status := Find(members, "status");
    if status.Some? && status.value.String? { ps := ps.(status := StatusFromName(status.value.str)); }
    var value := Find(members, "value");
    if value.Some? {
      var v := JsonToStateValue(value.value);
      ps := ps.(value := v);
    }
    var ctx := Find(members, "context");
    if ctx.Some? {
      var text := WriteJson(ctx.value);
      ps := ps.(context := Some(codec.value.fromJson(text)));
    }
    var hist := Find(members, "historyValue");
    if hist.Some? && hist.value.Object? {
      var h := ReadHistory(hist.value.members);
      ps := ps.(historyValue := h);
    }
    return Ok(ps);
  }

  method ReadHistory(members: seq<Member>) returns (h: map<string, seq<string>>)
    ensures h == HistoryIn(members, |members|)
  {
    h := map[];
    for i := 0 to |members|
      invariant h == HistoryIn(members, i)
    {
      var m := members[i];
      var ids := ReadIds(if m.key in h then h[m.key] else [], ItemsOf(m.value));
      h := h[m.key := ids];
    }
  }

  method ReadIds(ids: seq<string>, items: seq<JsonValue>) returns (ids': seq<string>)
    ensures ids' == ids + Texts(items)
  {
    ids' := ids;
    for j := 0 to |items|
      invariant ids' == ids + Texts(items)[..j]
    {
      ids' := ids' + [TextOf(items[j])];
    }
    assert Texts(items)[..|items|] == Texts(items);
  }

  /**
   The JSON form keeps status, state value and the whole history, and hands the context's text back to the codec
   unchanged.
   */
  lemma {:induction false} SnapshotJsonRoundTrip(ps: PersistedSnapshot, codec: ContextCodec, ctx: JsonValue,
                                                 blank: Context)
    requires Proper(ps.value) && Plain(ctx) && ps.context.Some? && codec.toJson(ps.context.value) == Written(ctx)
    ensures ParseDocument(Written(SnapshotDoc(ps, ctx))) == Ok(SnapshotDoc(ps, ctx))
    ensures SnapshotIn(SnapshotDoc(ps, ctx).members, codec, blank)
         == ps.(output := None, error := None, context := Some(codec.fromJson(codec.toJson(ps.context.value))),
                children := map[])
  {
    SnapshotDocPlain(ps, ctx);
    JsonRoundTrip(SnapshotDoc(ps, ctx));
    SnapshotDocRead(ps, codec, ctx, blank);
  }

  lemma {:induction false} SnapshotDocRead(ps: PersistedSnapshot, codec: ContextCodec, ctx: JsonValue, blank: Context)
    requires Proper(ps.value) && ps.context.Some? && codec.toJson(ps.context.value) == Written(ctx)
    ensures SnapshotIn(SnapshotDoc(ps, ctx).members, codec, blank)
         == ps.(output := None, error := None, context := Some(codec.fromJson(codec.toJson(ps.context.value))),
                children := map[])
  {
    ValueDocRoundTrip(ps.value);
    HistoryRoundTrip(ps.historyValue);
    StatusRead(ps.status);
    FindEach(String(StatusName(ps.status)), ValueDoc(ps.value), ctx, HistoryDoc(ps.historyValue));
  }

  lemma StatusRead(s: F.Status)
    ensures StatusFromName(StatusName(s)) == s
  {}

  lemma {:induction false} SnapshotDocPlain(ps: PersistedSnapshot, ctx: JsonValue)
    requires Plain(ctx)
    ensures Plain(SnapshotDoc(ps, ctx))
  {
    ValueDocPlain(ps.value);
    HistoryDocPlain(ps.historyValue, Sorted(ps.historyValue.Keys));
  }

  /** The whole history is recovered. */
  lemma {:induction false} HistoryRoundTrip(h: map<string, seq<string>>)
    ensures HistoryIn(HistoryDoc(h).members, |HistoryDoc(h).members|) == h
  {
    var keys := Sorted(h.Keys);
    HistoryRead(h, keys, |keys|);
    assert keys[..|keys|] == keys;
    SameHistories(HistoryIn(HistoryDocs(h, keys), |keys|), h, keys);
  }

  lemma SameHistories(read: map<string, seq<string>>, h: map<string, seq<string>>, keys: seq<string>)
    requires HistoriesFrom(read, h, keys) && forall j :: j in keys <==> j in h
    ensures read == h
  {}

  lemma FindEach(status: JsonValue, value: JsonValue, ctx: JsonValue, hist: JsonValue)
    ensures var m := [Member("status", status), Member("value", value), Member("context", ctx),
                      Member("historyValue", hist)];
            && Find(m, "status") == Some(status) && Find(m, "value") == Some(value)
            && Find(m, "context") == Some(ctx) && Find(m, "historyValue") == Some(hist)
  {
    var m3 := [Member("historyValue", hist)];
    var m2 := [Member("context", ctx)] + m3;
    var m1 := [Member("value", value)] + m2;
    var m0 := [Member("status", status)] + m1;
    assert m2[1..] == m3 && m1[1..] == m2 && m0[1..] == m1;
    assert "status"[0] != "value"[0] && "context"[0] != "value"[0] && "historyValue"[0] != "value"[0];
    assert "status"[0] != "context"[0] && "status"[0] != "historyValue"[0] && "context"[0] != "historyValue"[0];
    assert Find(m3, "historyValue") == Find(m2, "historyValue") == Find(m1, "historyValue") == Find(m0, "historyValue");
    assert Find(m2, "context") == Find(m1, "context") == Find(m0, "context");
    assert Find(m1, "value") == Find(m0, "value");
    assert m0 == [Member("status", status), Member("value", value), Member("context", ctx),
                  Member("historyValue", hist)];
  }

  lemma {:induction false} ValueDocPlain(v: StateValue)
    ensures Plain(ValueDoc(v))
    decreases v, 1, 0
  {
    if !v.Empty() && !v.IsLeaf() {
      var keys := Sorted(v.branches.Keys);
      forall i | 0 <= i < |keys| ensures Plain(BranchDocs(v, keys)[i].value) {
        BranchDocAt(v, keys, i);
        ValueDocPlain(v.branches[keys[i]]);
      }
    }
  }

  lemma {:induction false} HistoryDocPlain(h: map<string, seq<string>>, keys: seq<string>)
    requires forall k :: k in keys ==> k in h
    ensures Plain(Object(HistoryDocs(h, keys)))
  {
    forall i | 0 <= i < |keys| ensures Plain(HistoryDocs(h, keys)[i].value) {
      HistoryDocAt(h, keys, i);
      assert forall j :: 0 <= j < |h[keys[i]]| ==> Plain(IdsDoc(h[keys[i]]).items[j]);
    }
  }

  /**
   All the way: a snapshot written as JSON, parsed and restored has the same status, configuration, value, tags and
   history.
   */
  lemma {:induction false} JsonRestores(c: WFChart, snap: Snapshot, ps: PersistedSnapshot, codec: ContextCodec,
                                        ctx: JsonValue, blank: Context, snap': Snapshot, effects: seq<Effect>)
    requires Named(c) && Faithful(c, snap) && Persists(c, snap, ps)
    requires Plain(ctx) && codec.toJson(snap.context) == Written(ctx)
    requires IsRestored(c, SnapshotIn(SnapshotDoc(ps, ctx).members, codec, blank), snap', effects)
    ensures snap' == snap.(output := None, error := None, context := codec.fromJson(codec.toJson(snap.context)))
  {
    ValueProper(c, 0, Elems(snap.configuration));
    SnapshotJsonRoundTrip(ps, codec, ctx, blank);
    var again := codec.fromJson(codec.toJson(snap.context));
    var read := ps.(output := None, error := None, context := Some(again), children := map[]);
    PersistRestores(c, snap.(output := None, error := None, context := again), read, {});
  }

  // ---- what is read from any document ----

  /** The `i`-th of the first `k` members is the first with this key. */
  ghost predicate FirstMember(members: seq<Member>, key: string, k: nat, i: int) {
    0 <= i < k <= |members| && members[i].key == key && forall j :: 0 <= j < i ==> members[j].key != key
  }

  /** Of several members with one key the first counts. */
  lemma {:induction false} FindExact(members: seq<Member>, key: string)
    ensures match Find(members, key)
            case None => forall i :: 0 <= i < |members| ==> members[i].key != key
            case Some(v) => exists i :: FirstMember(members, key, |members|, i) && members[i].value == v
  {
    if members != [] {
      if members[0].key == key {
        assert FirstMember(members, key, |members|, 0);
      } else {
        var rest := members[1..];
        FindExact(rest, key);
        assert forall i :: 0 <= i < |rest| ==> rest[i] == members[i + 1];
        if Find(rest, key).Some? {
          var i :| FirstMember(rest, key, |rest|, i) && rest[i].value == Find(rest, key).value;
          forall j | 0 <= j < i + 1 ensures members[j].key != key { assert j > 0 ==> members[j] == rest[j - 1]; }
          assert FirstMember(members, key, |members|, i + 1);
        }
      }
    }
  }

  /** The branches of a state value are the members, of several with one key the first. */
  lemma {:induction false} BranchesExact(doc: JsonValue, k: nat, key: string)
    requires doc.Object? && k <= |doc.members|
    ensures key in BranchesIn(doc, k) <==> exists i :: FirstMember(doc.members, key, k, i)
    ensures forall i :: FirstMember(doc.members, key, k, i) ==>
      key in BranchesIn(doc, k) && BranchesIn(doc, k)[key] == ValueIn(doc.members[i].value)
  {
    if k > 0 {
      BranchesExact(doc, k - 1, key);
      forall i ensures FirstMember(doc.members, key, k, i) <==>
                       FirstMember(doc.members, key, k - 1, i)
                       || (i == k - 1 && doc.members[i].key == key && key !in BranchesIn(doc, k - 1))
      {
        if i == k - 1 && doc.members[i].key == key && !FirstMember(doc.members, key, k, i) {
          var j := LeastWith(doc.members, key, k - 1);
        }
      }
    }
  }

  lemma {:induction false} LeastWith(members: seq<Member>, key: string, k: nat) returns (j: nat)
    requires k <= |members| && exists i :: 0 <= i < k && members[i].key == key
    ensures FirstMember(members, key, k, j)
  {
    j := 0;
    while members[j].key != key
      invariant j < k && forall i :: 0 <= i < j ==> members[i].key != key
      decreases k - j
    {
      j := j + 1;
    }
  }

  /** The ids in a member with this key: an item that is no string is an empty id, a value that is no array has none. */
  function IdsHere(m: Member, key: string): seq<string> {
    if m.key == key && m.value.Array? then
      seq(|m.value.items|, i requires 0 <= i < |m.value.items| =>
        if m.value.items[i].String? then m.value.items[i].str else "")
    else []
  }

  /** The ids in all members with a key, in order. */
  function IdsUnder(members: seq<Member>, key: string): seq<string> {
    if members == [] then []
    else IdsUnder(members[..|members| - 1], key) + IdsHere(members[|members| - 1], key)
  }

  lemma IdsHereRead(m: Member, key: string)
    ensures IdsHere(m, key) == if m.key == key then Texts(ItemsOf(m.value)) else []
  {}

  lemma IdsNext(members: seq<Member>, m: Member, key: string)
    ensures IdsUnder(members + [m], key) == IdsUnder(members, key) + IdsHere(m, key)
  {
    assert (members + [m])[..|members|] == members;
  }

  /** What is read for a key, if anything is. */
  function ReadFor(h: map<string, seq<string>>, key: string): seq<string> { if key in h then h[key] else [] }

  lemma HistoryNext(members: seq<Member>, k: nat, key: string)
    requires 0 < k <= |members|
    ensures var h, m := HistoryIn(members, k - 1), members[k - 1];
            && (key in HistoryIn(members, k) <==> key in h || m.key == key)
            && ReadFor(HistoryIn(members, k), key) == ReadFor(h, key) + IdsHere(m, key)
  {
    IdsHereRead(members[k - 1], key);
    var ids := ReadFor(HistoryIn(members, k - 1), key);
    assert ids + [] == ids;
  }

  lemma {:induction false} HistoryKeys(members: seq<Member>, k: nat, key: string)
    requires k <= |members|
    ensures key in HistoryIn(members, k) <==> exists i :: 0 <= i < k && members[i].key == key
  {
    if k > 0 {
      HistoryKeys(members, k - 1, key);
      HistoryNext(members, k, key);
    }
  }

  /** Members with the same key are run together in a history. */
  lemma {:induction false} HistoryExact(members: seq<Member>, k: nat, key: string)
    requires k <= |members|
    ensures ReadFor(HistoryIn(members, k), key) == IdsUnder(members[..k], key)
  {
    if k > 0 {
      HistoryExact(members, k - 1, key);
      HistoryNext(members, k, key);
      IdsNext(members[..k - 1], members[k - 1], key);
      TakeNext(members, k - 1);
    }
  }

  /** The keys of a written snapshot, and the names of its status. */
  lemma SnapshotKeys(ps: PersistedSnapshot, ctx: JsonValue)
    ensures SnapshotDoc(ps, ctx) ==
      Object([Member("status", String(if ps.status == F.Active then "active" else if ps.status == F.Done then "done"
                                      else if ps.status == F.Error then "error" else "stopped")),
              Member("value", ValueDoc(ps.value)), Member("context", ctx),
              Member("historyValue", HistoryDoc(ps.historyValue))])
  {}

  /**
   Reading takes "status", "value", "context" and "historyValue", wherever they
   stand; an unknown status, or none, is active, and what else is missing empty.
   */
  lemma SnapshotRead(members: seq<Member>, codec: ContextCodec, blank: Context)
    ensures var ps, status := SnapshotIn(members, codec, blank), Find(members, "status");
            && (ps.status == F.Done <==> status == Some(String("done")))
            && (ps.status == F.Error <==> status == Some(String("error")))
            && (ps.status == F.Stopped <==> status == Some(String("stopped")))
            && ps.output == None && ps.error == None && ps.children == map[]
    ensures var ps, value, ctx := SnapshotIn(members, codec, blank), Find(members, "value"), Find(members, "context");
            && ps.value == (if value.Some? then ValueIn(value.value) else StateValue("", map[]))
            && ps.context == Some(if ctx.Some? then codec.fromJson(Written(ctx.value)) else blank)
    ensures var ps, hist := SnapshotIn(members, codec, blank), Find(members, "historyValue");
            ps.historyValue == if hist.Some? && hist.value.Object? then HistoryIn(hist.value.members,
                                                                                  |hist.value.members|) else map[]
  {}
}
