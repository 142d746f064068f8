/** Turning repeated snapshots of Redis' ACL LOG into event counters. */
module AclLog {
  import opened Text
  import opened Resp
  import opened Client
  import opened Registry

  const DESTRUCTIVE_COMMANDS: set<string> := {
    "flushall", "flushdb", "swapdb", "config", "acl", "shutdown", "debug",
    "module", "migrate", "restore", "replicaof", "slaveof", "failover",
    "save", "bgsave", "bgrewriteaof", "monitor", "keys", "eval", "evalsha",
    "client", "latency", "cluster", "wait", "script", "function", "reset", "dump"}

  function RoleOf(username: string): string
  {
    if username == "rtrv-broker" then "broker"
    else if username == "rtrv-results" then "results"
    else if username == "rtrv-monitor" then "monitor"
    else "other"
  }

  // ---- the counters ---------------------------------------------------------------------------------

  function Denied(role: string, category: string): Series
  {
    Series("redis_acl_denied_commands_total", [Label("role", role), Label("category", category)])
  }

  const AUTH_FAILURES: Series := Series("redis_auth_failures_total", [])
  const EMERGENCY_USE: Series := Series("redis_acl_emergency_use_total", [])
  const DEFAULT_SUCCESS: Series := Series("redis_acl_default_auth_success_total", [])

  /** The denied-command counters of one role. */
  function DeniedBy(role: string): seq<Series>
  {
    [Denied(role, "destructive"), Denied(role, "other")]
  }

  /** The nine counters that one entry is charged to exactly one of. */
  const PARTITION: seq<Series> :=
    DeniedBy("broker") + DeniedBy("results") + DeniedBy("monitor") + DeniedBy("other") + [AUTH_FAILURES]

  /** The pre-seeded keys, in the order of the constructor. */
  const SEEDED_KEYS: seq<Series> := PARTITION + [EMERGENCY_USE, DEFAULT_SUCCESS]

  function Zeros(keys: seq<Series>): (d: Dict)
    ensures Keys(d) == keys
  {
    seq(|keys|, i requires 0 <= i < |keys| => Item(keys[i], 0))
  }

  // ---- one page of the log --------------------------------------------------------------------------

  type Record = map<Reply, Reply>

  datatype Entry = Entry(id: int, count: int, record: Record)

  /** `record.get(field, default)`, as text. */
  function Field(record: Record, field: string, default: string): string
  {
    if Str(field) in record then PyStr(record[Str(field)]) else default
  }

  /** `int(record.get(field, default))`; None is a ValueError or TypeError. */
  function IntField(record: Record, field: string, default: int): Option<int>
  {
    if Str(field) !in record then Some(default)
    else match record[Str(field)]
      case Int(n) => Some(n)
      case Str(s) => PyInt(s)
      case _ => None
  }

  /** The flat field list from `index` on, added to `record`; None is a field name that
      cannot be a dict key. */
  function RecordFrom(items: seq<Reply>, index: nat, record: Record): Option<Record>
    decreases |items| - index
  {
    if index + 1 >= |items| then Some(record)
    else if !Hashable(items[index]) then None
    else RecordFrom(items, index + 2, record[items[index] := items[index + 1]])
  }

  /** The usable entries; one whose id or count is no number is skipped, and an entry that
      is no field list at all ends the poll. */
  function ParseEntries(entries: seq<Reply>, parsed: seq<Entry>): Result<seq<Entry>>
  {
    if entries == [] then Ok(parsed)
    else match Elements(entries[0])
      case None => Raise(BAD_TYPE)
      case Some(items) =>
        match RecordFrom(items, 0, map[])
        case None => Raise(BAD_TYPE)
        case Some(record) =>
          match (IntField(record, "entry-id", 0), IntField(record, "count", 1))
          case (Some(id), Some(count)) => ParseEntries(entries[1..], parsed + [Entry(id, count, record)])
          case _ => ParseEntries(entries[1..], parsed)
  }

  function ParsePage(reply: Reply): Result<seq<Entry>>
  {
    if !Truthy(reply) then Ok([])
    else match Elements(reply)
      case None => Raise(BAD_TYPE)
      case Some(entries) => ParseEntries(entries, [])
  }

  /** A record has the last value given for each field name. */
  lemma {:induction false} RecordHolds(items: seq<Reply>, index: nat, record: Record, k: nat)
    requires |items| % 2 == 0 && index % 2 == 0 && index <= 2 * k < |items|
    requires forall i | index <= i < |items| && i % 2 == 0 :: Hashable(items[i])
    requires forall i | 2 * k < i < |items| && i % 2 == 0 :: items[i] != items[2 * k]
    ensures var r := RecordFrom(items, index, record);
            r.Some? && items[2 * k] in r.value && r.value[items[2 * k]] == items[2 * k + 1]
    decreases |items| - index
  {
    var updated := record[items[index] := items[index + 1]];
    if index < 2 * k {
      RecordHolds(items, index + 2, updated, k);
    } else {
      RecordKeeps(items, index + 2, updated, items[2 * k]);
    }
  }

  lemma {:induction false} RecordKeeps(items: seq<Reply>, index: nat, record: Record, name: Reply)
    requires |items| % 2 == 0 && index % 2 == 0 && name in record
    requires forall i | index <= i < |items| && i % 2 == 0 :: Hashable(items[i]) && items[i] != name
    ensures var r := RecordFrom(items, index, record);
            r.Some? && name in r.value && r.value[name] == record[name]
    decreases |items| - index
  {
    if index + 1 < |items| {
      RecordKeeps(items, index + 2, record[items[index] := items[index + 1]], name);
    }
  }

  /** An entry as the server keeps it, and the field list it sends for it. */
  datatype Listed = Listed(id: int, count: int, reason: string, object_: string, username: string)

  function FieldList(e: Listed): seq<Reply>
  {
    [Str("count"), Int(e.count), Str("reason"), Str(e.reason), Str("object"), Str(e.object_),
     Str("username"), Str(e.username), Str("entry-id"), Int(e.id)]
  }

  function PageReply(listed: seq<Listed>): seq<Reply>
  {
    seq(|listed|, i requires 0 <= i < |listed| => List(FieldList(listed[i])))
  }

  ghost predicate Reads(e: Entry, l: Listed)
  {
    && e.id == l.id && e.count == l.count
    && Field(e.record, "reason", "command") == l.reason && Field(e.record, "object", "") == l.object_
    && Field(e.record, "username", "") == l.username
  }

  const FIELD_NAMES: seq<string> := ["count", "reason", "object", "username", "entry-id"]

  lemma FieldNamesDistinct()
    ensures forall i, j | 0 <= i < j < 5 :: FIELD_NAMES[i] != FIELD_NAMES[j]
  {
    assert forall i | 0 <= i < 5 :: |FIELD_NAMES[i]| > 0 && FIELD_NAMES[i][0] == "croue"[i];
  }

  lemma FieldAt(l: Listed, k: nat)
    requires k < 5
    ensures var r := RecordFrom(FieldList(l), 0, map[]);
            r.Some? && Str(FIELD_NAMES[k]) in r.value && r.value[Str(FIELD_NAMES[k])] == FieldList(l)[2 * k + 1]
  {
    var items := FieldList(l);
    FieldNamesDistinct();
    assert forall i | 0 <= i < 5 :: items[2 * i] == Str(FIELD_NAMES[i]);
    forall i | 0 <= i < 10 && i % 2 == 0 ensures Hashable(items[i]) && (i > 2 * k ==> items[i] != items[2 * k]) {
      assert items[i] == items[2 * (i / 2)] == Str(FIELD_NAMES[i / 2]);
    }
    RecordHolds(items, 0, map[], k);
  }

  lemma ReadListed(l: Listed)
    ensures var r := RecordFrom(FieldList(l), 0, map[]);
            && r.Some?
            && IntField(r.value, "entry-id", 0) == Some(l.id) && IntField(r.value, "count", 1) == Some(l.count)
            && Reads(Entry(l.id, l.count, r.value), l)
  {
    FieldAt(l, 0);
    FieldAt(l, 1);
    FieldAt(l, 2);
    FieldAt(l, 3);
    FieldAt(l, 4);
  }

  /** The page a server lists is parsed back entry by entry, in order, none left out. */
  lemma {:induction false} ParseListed(listed: seq<Listed>, parsed: seq<Entry>)
    ensures var r := ParseEntries(PageReply(listed), parsed);
            && r.Ok? && |r.value| == |parsed| + |listed| && parsed <= r.value
            && forall i | 0 <= i < |listed| :: Reads(r.value[|parsed| + i], listed[i])
    decreases |listed|
  {
    if listed != [] {
      var entries := PageReply(listed);
      ReadListed(listed[0]);
      var e := Entry(listed[0].id, listed[0].count, RecordFrom(FieldList(listed[0]), 0, map[]).value);
      assert entries[1..] == PageReply(listed[1..]);
      ParseListed(listed[1..], parsed + [e]);
      var r := ParseEntries(entries, parsed);
      assert r == ParseEntries(entries[1..], parsed + [e]);
      forall i | 0 <= i < |listed| ensures Reads(r.value[|parsed| + i], listed[i]) {
        if i == 0 {
          assert r.value[|parsed|] == (parsed + [e])[|parsed|];
        } else {
          assert listed[1..][i - 1] == listed[i];
        }
      }
    }
  }

  /** The whole reply: the entries listed, none for an empty answer, and an error for a
      number. */
  lemma PageParsed(listed: seq<Listed>, n: int)
    requires n != 0
    ensures var r := ParsePage(List(PageReply(listed)));
            r.Ok? && |r.value| == |listed| && forall i | 0 <= i < |listed| :: Reads(r.value[i], listed[i])
    ensures ParsePage(Nil) == ParsePage(Str("")) == ParsePage(Int(0)) == Ok([])
    ensures ParsePage(Int(n)) == Raise(Failure("TypeError"))
  {
    ParseListed(listed, []);
  }

  /** An entry whose id or count cannot be read is left out, and the rest is read on. */
  lemma UnreadableSkipped(items: seq<Reply>, rest: seq<Reply>, parsed: seq<Entry>)
    requires RecordFrom(items, 0, map[]).Some?
    requires var r := RecordFrom(items, 0, map[]).value;
             IntField(r, "entry-id", 0).None? || IntField(r, "count", 1).None?
    ensures ParseEntries([List(items)] + rest, parsed) == ParseEntries(rest, parsed)
  {
    assert ([List(items)] + rest)[1..] == rest;
  }

  /** A number is taken as it is, a text as `int()` reads it, and nothing else; a field that
      is missing has its default. */
  lemma IntFieldIs(record: Record, field: string, default: int)
    ensures Str(field) !in record ==> IntField(record, field, default) == Some(default)
    ensures Str(field) in record ==>
              (match record[Str(field)]
               case Int(n) => IntField(record, field, default) == Some(n)
               case Str(s) => IntField(record, field, default) == PyInt(s)
               case Nil => IntField(record, field, default) == None
               case List(_) => IntField(record, field, default) == None)
  {
  }

  // ---- classification -------------------------------------------------------------------------------

  datatype Class = Class(key: Series, emergency: bool)

  function LowerChar(c: char): char
  {
    if 'A' <= c <= 'Z' then (c as int + 32) as char else c
  }

  function Lower(s: string): string
  {
    seq(|s|, i requires 0 <= i < |s| => LowerChar(s[i]))
  }

  function Classify(record: Record): (c: Class)
    ensures c.key in PARTITION
    ensures c.emergency ==> c.key in DeniedBy("other") + [AUTH_FAILURES]
    ensures c.emergency <==> Field(record, "username", "") == "rtrv-emergency"
    ensures c.key == AUTH_FAILURES <==> Field(record, "reason", "command") == "auth"
  {
    var reason := Field(record, "reason", "command");
    var object_ := Field(record, "object", "");
    var command := Lower(object_[..IndexOf(object_, '|')]);
    var username := Field(record, "username", "");
    var emergency := username == "rtrv-emergency";
    if reason == "auth" then Class(AUTH_FAILURES, emergency)
    else Class(Denied(RoleOf(username), if command in DESTRUCTIVE_COMMANDS then "destructive" else "other"), emergency)
  }

  /** A named role is the user name without its prefix; three users have one. */
  lemma NamedRoles(username: string)
    ensures RoleOf(username) == "other" <==> username !in {"rtrv-broker", "rtrv-results", "rtrv-monitor"}
    ensures RoleOf(username) != "other" ==> username == "rtrv-" + RoleOf(username)
  {
    assert "broker"[0] == 'b' && "results"[0] == 'r' && "monitor"[0] == 'm' && "other"[0] == 'o';
  }

  lemma {:induction false} FirstPart(name: string, rest: string)
    requires '|' !in name && (rest == [] || rest[0] == '|')
    ensures (name + rest)[..IndexOf(name + rest, '|')] == name
  {
    var s := name + rest;
    if rest == [] {
      assert s == name;
    } else {
      assert s[..|name|] == name;
      IndexOfFirst(s, '|', |name|);
    }
  }

  /** Only the command itself decides: its subcommand and its case do not. */
  lemma SubcommandAndCaseIgnored(a: Record, name: string, rest: string, b: Record, name': string, rest': string)
    requires Field(a, "object", "") == name + rest && '|' !in name && (rest == [] || rest[0] == '|')
    requires Field(b, "object", "") == name' + rest' && '|' !in name' && (rest' == [] || rest'[0] == '|')
    requires Lower(name) == Lower(name')
    requires Field(a, "username", "") == Field(b, "username", "")
    requires Field(a, "reason", "command") == Field(b, "reason", "command")
    ensures Classify(a) == Classify(b)
  {
    FirstPart(name, rest);
    FirstPart(name', rest');
  }

  /** Two denials go to the same counter exactly when role and category agree. */
  lemma SameCounterIff(a: Record, name: string, rest: string, b: Record, name': string, rest': string)
    requires Field(a, "object", "") == name + rest && '|' !in name && (rest == [] || rest[0] == '|')
    requires Field(b, "object", "") == name' + rest' && '|' !in name' && (rest' == [] || rest'[0] == '|')
    requires Field(a, "reason", "command") != "auth" && Field(b, "reason", "command") != "auth"
    ensures Classify(a).key == Classify(b).key <==>
              && RoleOf(Field(a, "username", "")) == RoleOf(Field(b, "username", ""))
              && (Lower(name) in DESTRUCTIVE_COMMANDS <==> Lower(name') in DESTRUCTIVE_COMMANDS)
  {
    FirstPart(name, rest);
    FirstPart(name', rest');
    var x, y := Classify(a).key, Classify(b).key;
    assert x.labels == y.labels ==> x.labels[0].value == y.labels[0].value && x.labels[1].value == y.labels[1].value;
    assert "destructive"[0] == 'd' && "other"[0] == 'o';
  }

  // ---- classification, said by the fields --------------------------------------------------------------

  const UPPER: string := "ABCDEFGHIJKLMNOPQRSTUVWXYZ"
  const LOWER: string := "abcdefghijklmnopqrstuvwxyz"

  /** Capital letters become small ones, and nothing else changes. */
  lemma LowerIs(c: char)
    ensures forall k | 0 <= k < 26 :: c == UPPER[k] ==> LowerChar(c) == LOWER[k]
    ensures c !in UPPER ==> LowerChar(c) == c
  {
    assert forall k | 0 <= k < 26 :: UPPER[k] as int == 65 + k && LOWER[k] as int == 97 + k;
    if 'A' <= c <= 'Z' {
      assert c == UPPER[c as int - 65];
    }
  }

  /** The command in front of the first bar, if any, is one of the listed ones but for case. */
  ghost predicate DestructiveObject(object_: string)
  {
    exists name: string, rest: string ::
      && object_ == name + rest && '|' !in name && (rest == [] || rest[0] == '|')
      && Lower(name) in DESTRUCTIVE_COMMANDS
  }

  predicate HasRole(username: string, role: string)
  {
    if role == "other" then username !in {"rtrv-broker", "rtrv-results", "rtrv-monitor"}
    else role in {"broker", "results", "monitor"} && username == "rtrv-" + role
  }

  /** The denial of a command, destructive or not, to a user of that role. */
  ghost predicate IsDenial(record: Record, role: string, destructive: bool)
  {
    && Field(record, "reason", "command") != "auth" && HasRole(Field(record, "username", ""), role)
    && (destructive <==> DestructiveObject(Field(record, "object", "")))
  }

  lemma {:induction false} UpToBar(s: string)
    ensures var i := IndexOf(s, '|'); '|' !in s[..i] && s == s[..i] + s[i..] && (s[i..] == [] || s[i..][0] == '|')
  {
  }

  lemma DestructiveIff(object_: string)
    ensures DestructiveObject(object_) <==> Lower(object_[..IndexOf(object_, '|')]) in DESTRUCTIVE_COMMANDS
  {
    UpToBar(object_);
    if DestructiveObject(object_) {
      var name: string, rest: string :|
        && object_ == name + rest && '|' !in name && (rest == [] || rest[0] == '|')
        && Lower(name) in DESTRUCTIVE_COMMANDS;
      FirstPart(name, rest);
    }
  }

  lemma HasRoleIff(username: string, role: string)
    ensures HasRole(username, role) <==> RoleOf(username) == role
  {
    NamedRoles(username);
    assert "broker"[0] == 'b' && "results"[0] == 'r' && "monitor"[0] == 'm' && "other"[0] == 'o';
    assert "rtrv-" + "broker" == "rtrv-broker" && "rtrv-" + "results" == "rtrv-results";
    assert "rtrv-" + "monitor" == "rtrv-monitor";
  }

  function Category(destructive: bool): string
  {
    if destructive then "destructive" else "other"
  }

  lemma DeniedApart(role: string, category: string, role': string, category': string)
    ensures Denied(role, category) == Denied(role', category') <==> role == role' && category == category'
    ensures Denied(role, category) != AUTH_FAILURES && Denied(role, category) != EMERGENCY_USE
  {
    var x, y := Denied(role, category), Denied(role', category');
    assert x.labels[0].value == role && x.labels[1].value == category;
    assert y.labels[0].value == role' && y.labels[1].value == category';
    assert |x.labels| == 2 && |AUTH_FAILURES.labels| == 0 && |EMERGENCY_USE.labels| == 0;
  }

  lemma CategoriesApart()
    ensures Category(true) != Category(false)
  {
    assert Category(true)[0] == 'd' && Category(false)[0] == 'o';
  }

  /** An entry is charged to the series of a role and category exactly when it is the denial
      of such a command to such a user. */
  lemma ClassifiedAsDenialIff(record: Record, role: string, destructive: bool)
    ensures Classify(record).key == Denied(role, Category(destructive)) <==> IsDenial(record, role, destructive)
  {
    var username := Field(record, "username", "");
    DestructiveIff(Field(record, "object", ""));
    HasRoleIff(username, role);
    CategoriesApart();
    DeniedApart(RoleOf(username), Category(true), role, Category(destructive));
    DeniedApart(RoleOf(username), Category(false), role, Category(destructive));
    DeniedApart(role, Category(destructive), role, Category(destructive));
  }

  predicate Hits(c: Class, key: Series)
  {
    c.key == key || (c.emergency && key == EMERGENCY_USE)
  }

  // ---- accumulation ---------------------------------------------------------------------------------

  datatype Acl = Acl(booted: bool, seen: map<int, int>, counters: Dict)

  const START: Acl := Acl(false, map[], Zeros(SEEDED_KEYS))

  function GetOr0(d: Dict, key: Series): int
  {
    match Get(d, key)
    case None => 0
    case Some(v) => v
  }

  function Bump(d: Dict, key: Series, delta: int): Dict
  {
    Put(d, key, GetOr0(d, key) + delta)
  }

  function Charge(d: Dict, c: Class, delta: int): Dict
  {
    var charged := Bump(d, c.key, delta);
    if c.emergency then Bump(charged, EMERGENCY_USE, delta) else charged
  }

  /** What one entry adds: all of a new entry, the growth of a known one. */
  function Delta(seen: map<int, int>, e: Entry): int
  {
    if e.id !in seen then e.count
    else if e.count > seen[e.id] then e.count - seen[e.id] else 0
  }

  function Count1(a: Acl, e: Entry): Acl
  {
    var delta := Delta(a.seen, e);
    Acl(a.booted, a.seen[e.id := e.count],
        if delta == 0 then a.counters else Charge(a.counters, Classify(e.record), delta))
  }

  function CountAll(a: Acl, entries: seq<Entry>): Acl
  {
    if entries == [] then a
    else Count1(CountAll(a, entries[..|entries| - 1]), entries[|entries| - 1])
  }

  function Adopt(seen: map<int, int>, entries: seq<Entry>): map<int, int>
  {
    if entries == [] then seen
    else Adopt(seen, entries[..|entries| - 1])[entries[|entries| - 1].id := entries[|entries| - 1].count]
  }

  /** What one page does: the first is adopted without counting. */
  function OnPage(a: Acl, page: seq<Entry>): Acl
  {
    if a.booted then CountAll(a, page) else Acl(true, Adopt(a.seen, page), a.counters)
  }

  function OnPages(a: Acl, pages: seq<seq<Entry>>): Acl
  {
    if pages == [] then a else OnPage(OnPages(a, pages[..|pages| - 1]), pages[|pages| - 1])
  }

  // ---- the key set and the partition ----------------------------------------------------------------

  lemma BumpGet(d: Dict, key: Series, delta: int, other: Series)
    ensures GetOr0(Bump(d, key, delta), other) == GetOr0(d, other) + if other == key then delta else 0
  {
    GetPut(d, key, GetOr0(d, key) + delta, other);
  }

  /** A charge moves exactly the counters its class hits. */
  lemma ChargeGet(d: Dict, c: Class, delta: int, key: Series)
    requires c.key != EMERGENCY_USE
    ensures GetOr0(Charge(d, c, delta), key) == GetOr0(d, key) + if Hits(c, key) then delta else 0
  {
    BumpGet(d, c.key, delta, key);
    BumpGet(Bump(d, c.key, delta), EMERGENCY_USE, delta, key);
  }

  /** The place of a partition key, read off its label values. */
  function Place(key: Series): nat
  {
    if |key.labels| != 2 || key.labels[0].value == [] || key.labels[1].value == [] then 8
    else
      (match key.labels[0].value[0] case 'b' => 0 case 'r' => 2 case 'm' => 4 case _ => 6)
      + (if key.labels[1].value[0] == 'd' then 0 else 1)
  }

  lemma PartitionPlaces()
    ensures |PARTITION| == 9
    ensures forall i | 0 <= i < 9 :: Place(PARTITION[i]) == i
  {
    assert PARTITION == [
      Denied("broker", "destructive"), Denied("broker", "other"),
      Denied("results", "destructive"), Denied("results", "other"),
      Denied("monitor", "destructive"), Denied("monitor", "other"),
      Denied("other", "destructive"), Denied("other", "other"), AUTH_FAILURES];
  }

  /** The eleven seeded keys are eleven: nine that partition the growth, and two more. */
  lemma SeededKeysDistinct()
    ensures |SEEDED_KEYS| == 11
    ensures forall i, j | 0 <= i < j < 11 :: SEEDED_KEYS[i] != SEEDED_KEYS[j]
    ensures EMERGENCY_USE !in PARTITION && DEFAULT_SUCCESS !in PARTITION && EMERGENCY_USE != DEFAULT_SUCCESS
  {
    PartitionPlaces();
    assert SEEDED_KEYS[9] == EMERGENCY_USE && SEEDED_KEYS[10] == DEFAULT_SUCCESS;
    assert |AUTH_FAILURES.name| == 25 && |EMERGENCY_USE.name| == 29 && |DEFAULT_SUCCESS.name| == 36;
    assert PARTITION[8] == AUTH_FAILURES;
    forall i | 0 <= i < 9 ensures PARTITION[i] != EMERGENCY_USE && PARTITION[i] != DEFAULT_SUCCESS {
      assert Place(PARTITION[i]) == i;
    }
    forall i, j | 0 <= i < j < 11 ensures SEEDED_KEYS[i] != SEEDED_KEYS[j] {
      if j < 9 {
        assert Place(PARTITION[i]) == i && Place(PARTITION[j]) == j;
      }
    }
  }
}
