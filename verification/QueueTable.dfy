/**
 pkg/queue/queue.go: the in-memory table of queues, owned by one goroutine that
 serves commands one at a time.
 */
module QueueTable {
  import opened Wrappers

  type Key = string

  datatype QueueSpec = QueueSpec(
    name: string,
    namespace: string,
    uri: string,
    host: string,
    protocol: string,
    queueServiceName: string,
    messages: int,
    messagesSentPerMinute: real,
    idleWorkers: int,
    workers: int,
    secondsToProcessOneJob: real)

  type Table = map<Key, QueueSpec>

  // The result of GetQueueInfo; an empty name means the queue is unknown.
  datatype QueueInfo = QueueInfo(name: string, messages: int, messagesSentPerMinute: real, idleWorkers: int)

  const UNSYNCED_QUEUE_MESSAGE_COUNT := -1
  const UNSYNCED_MESSAGES_SENT_PER_MINUTE := -1.0
  const UNSYNCED_IDLE_WORKERS := -1

  // Go's zero QueueSpec.
  const NO_QUEUE := QueueSpec("", "", "", "", "", "", 0, 0.0, 0, 0, 0.0)

  // The messages on the actor's channels. Each carries a map.
  datatype Command =
    | AddQueues(specs: Table)
    | UpdateMessages(counts: map<Key, int>)
    | UpdateMessagesSent(rates: map<Key, real>)
    | UpdateIdleWorkers(idle: map<Key, int>)
    | DeleteQueue(key: Key)

  // The table after one command.
  function Apply(t: Table, c: Command): Table {
    match c
    case AddQueues(specs) => t + specs
    case UpdateMessages(m) => map k | k in t :: if k in m then t[k].(messages := m[k]) else t[k]
    case UpdateMessagesSent(m) => map k | k in t :: if k in m then t[k].(messagesSentPerMinute := m[k]) else t[k]
    case UpdateIdleWorkers(m) => map k | k in t :: if k in m then t[k].(idleWorkers := m[k]) else t[k]
    case DeleteQueue(key) => t - {key}
  }

  function ApplyAll(t: Table, cs: seq<Command>): Table
    decreases |cs|
  {
    if cs == [] then t else ApplyAll(Apply(t, cs[0]), cs[1..])
  }

  lemma {:induction false} ApplyAllAppend(t: Table, a: seq<Command>, b: seq<Command>)
    ensures ApplyAll(t, a + b) == ApplyAll(ApplyAll(t, a), b)
    decreases |a|
  {
    if a == [] {
      assert a + b == b;
    } else {
      assert (a + b)[1..] == a[1..] + b;
      ApplyAllAppend(Apply(t, a[0]), a[1..], b);
    }
  }

  // ListQueue: the stored spec, or the zero spec.
  function Lookup(t: Table, key: Key): QueueSpec {
    if key in t then t[key] else NO_QUEUE
  }

  function InfoOf(t: Table, key: Key): QueueInfo {
    var spec := Lookup(t, key);
    if spec.name == "" then QueueInfo("", 0, 0.0, 0)
    else QueueInfo(spec.name, spec.messages, spec.messagesSentPerMinute, spec.idleWorkers)
  }

  // The keys of one service's queues.
  ghost function Present(queueServiceName: string, t: Table): set<Key> {
    set k | k in t && t[k].queueServiceName == queueServiceName
  }

  function GetKey(namespace: string, name: string): Key {
    namespace + "/" + name
  }

  // What URI parsing and service detection make of a queue URI.
  datatype Uri = EmptyUri | BadUri | UnsupportedUri | QueueUri(
    uri: string, queueName: string, protocol: string, host: string, queueServiceName: string)

  // The spec Queues.Add builds from what it found in the table. A spec with an
  // empty name counts as absent.
  function BuildSpec(found: QueueSpec, namespace: string, uri: Uri, workers: int, seconds: real): QueueSpec
    requires uri.QueueUri?
  {
    var known := found.name != "";
    QueueSpec(
      uri.queueName, namespace, uri.uri, uri.host, uri.protocol, uri.queueServiceName,
      if known then found.messages else UNSYNCED_QUEUE_MESSAGE_COUNT,
      if known then found.messagesSentPerMinute else UNSYNCED_MESSAGES_SENT_PER_MINUTE,
      if known then found.idleWorkers else UNSYNCED_IDLE_WORKERS,
      workers, seconds)
  }

  class Queues {
    var item: Table

    constructor ()
      ensures item == map[]
    {
      item := map[];
    }

    // ---------- The arms of the select loop in Sync ----------

    method ServeAdd(specs: Table)
      modifies this
      ensures item == Apply(old(item), AddQueues(specs))
    {
      var rest := specs.Keys;
      while rest != {}
        invariant rest <= specs.Keys
        invariant item == old(item) + (map k | k in specs && k !in rest :: specs[k])
        decreases rest
      {
        var key :| key in rest;
        item := item[key := specs[key]];
        rest := rest - {key};
      }
      assert (map k | k in specs && k !in rest :: specs[k]) == specs;
    }

    method ServeMessages(counts: map<Key, int>)
      modifies this
      ensures item == Apply(old(item), UpdateMessages(counts))
    {
      var rest := counts.Keys;
      while rest != {}
        invariant rest <= counts.Keys && item.Keys == old(item).Keys
        invariant forall k | k in item ::
          item[k] == (if k in counts && k !in rest then old(item)[k].(messages := counts[k]) else old(item)[k])
        decreases rest
      {
        var key :| key in rest;
        rest := rest - {key};
        if key !in item {
          continue;
        }
        var spec := item[key];
        spec := spec.(messages := counts[key]);
        item := item[key := spec];
      }
    }

    method ServeMessagesSent(rates: map<Key, real>)
      modifies this
      ensures item == Apply(old(item), UpdateMessagesSent(rates))
    {
      var rest := rates.Keys;
      while rest != {}
        invariant rest <= rates.Keys && item.Keys == old(item).Keys
        invariant forall k | k in item ::
          item[k] == (if k in rates && k !in rest
                      then old(item)[k].(messagesSentPerMinute := rates[k])
                      else old(item)[k])
        decreases rest
      {
        var key :| key in rest;
        rest := rest - {key};
        if key !in item {
          continue;
        }
        var spec := item[key];
        spec := spec.(messagesSentPerMinute := rates[key]);
        item := item[key := spec];
      }
    }

    method ServeIdleWorkers(idle: map<Key, int>)
      modifies this
      ensures item == Apply(old(item), UpdateIdleWorkers(idle))
    {
      var rest := idle.Keys;
      while rest != {}
        invariant rest <= idle.Keys && item.Keys == old(item).Keys
        invariant forall k | k in item ::
          item[k] == (if k in idle && k !in rest then old(item)[k].(idleWorkers := idle[k]) else old(item)[k])
        decreases rest
      {
        var key :| key in rest;
        rest := rest - {key};
        if key !in item {
          continue;
        }
        var spec := item[key];
        spec := spec.(idleWorkers := idle[key]);
        item := item[key := spec];
      }
    }

    method ServeDelete(key: Key)
      modifies this
      ensures item == Apply(old(item), DeleteQueue(key))
    {
      if key in item {
        item := map k | k in item && k != key :: item[k];
      }
    }

    method Serve(c: Command)
      modifies this
      ensures item == Apply(old(item), c)
    {
      match c
      case AddQueues(specs) => ServeAdd(specs);
      case UpdateMessages(counts) => ServeMessages(counts);
      case UpdateMessagesSent(rates) => ServeMessagesSent(rates);
      case UpdateIdleWorkers(idle) => ServeIdleWorkers(idle);
      case DeleteQueue(key) => ServeDelete(key);
    }

    // DeepCopyItem.
    method ListAll() returns (copy: Table)
      ensures copy == item
    {
      copy := map[];
      var rest := item.Keys;
      while rest != {}
        invariant rest <= item.Keys
        invariant copy == map k | k in item && k !in rest :: item[k]
        decreases rest
      {
        var key :| key in rest;
        copy := copy[key := item[key]];
        rest := rest - {key};
      }
    }

    method List(queueServiceName: string) returns (filtered: Table)
      ensures filtered == map k | k in item && item[k].queueServiceName == queueServiceName :: item[k]
      ensures filtered.Keys == Present(queueServiceName, item)
    {
      var all := ListAll();
      filtered := map[];
      var rest := all.Keys;
      while rest != {}
        invariant rest <= all.Keys
        invariant filtered == map k | k in all && k !in rest && all[k].queueServiceName == queueServiceName :: all[k]
        decreases rest
      {
        var key :| key in rest;
        if all[key].queueServiceName == queueServiceName {
          filtered := filtered[key := all[key]];
        }
        rest := rest - {key};
      }
    }

    // ---------- The client side, with nobody else in between ----------

    method ListQueue(key: Key) returns (spec: QueueSpec)
      ensures spec == Lookup(item, key)
    {
      var all := ListAll();
      if key !in all {
        return NO_QUEUE;
      }
      return all[key];
    }

    method Add(namespace: string, name: string, uri: Uri, workers: int, seconds: real) returns (ok: bool)
      modifies this
      ensures ok <==> !uri.BadUri?
      ensures !uri.QueueUri? ==> item == old(item)
      ensures uri.QueueUri? ==>
        var key := GetKey(namespace, name);
        && item == old(item)[key := BuildSpec(Lookup(old(item), key), namespace, uri, workers, seconds)]
        && item[key].name == uri.queueName && item[key].namespace == namespace
        && item[key].uri == uri.uri && item[key].host == uri.host && item[key].protocol == uri.protocol
        && item[key].queueServiceName == uri.queueServiceName
        && item[key].workers == workers && item[key].secondsToProcessOneJob == seconds
        && (item[key].messages, item[key].messagesSentPerMinute, item[key].idleWorkers)
           == if key in old(item) && old(item)[key].name != ""
              then (old(item)[key].messages, old(item)[key].messagesSentPerMinute, old(item)[key].idleWorkers)
              else (-1, -1.0, -1)
    {
      match uri
      case EmptyUri => return true;
      case BadUri => return false;
      case UnsupportedUri => return true;
      case QueueUri(text, queueName, protocol, host, service) =>
        var key := GetKey(namespace, name);
        var messages := UNSYNCED_QUEUE_MESSAGE_COUNT;
        var idleWorkers := UNSYNCED_IDLE_WORKERS;
        var messagesSent := UNSYNCED_MESSAGES_SENT_PER_MINUTE;
        var spec := ListQueue(key);
        if spec.name != "" {
          messages := spec.messages;
          messagesSent := spec.messagesSentPerMinute;
          idleWorkers := spec.idleWorkers;
        }
        Serve(AddQueues(map[key := QueueSpec(
          queueName, namespace, text, host, protocol, service,
          messages, messagesSent, idleWorkers, workers, seconds)]));
        return true;
    }

    method GetQueueInfo(namespace: string, name: string) returns (info: QueueInfo)
      ensures info == InfoOf(item, GetKey(namespace, name))
    {
      var spec := ListQueue(GetKey(namespace, name));
      if spec.name == "" {
        return QueueInfo("", 0, 0.0, 0);
      }
      return QueueInfo(spec.name, spec.messages, spec.messagesSentPerMinute, spec.idleWorkers);
    }
  }

  // ---------- What an Add and the other commands leave ----------

  // An added queue is listed for its own service and for no other, and a sync
  // that asks for it finds its name and the metrics that were known.
  lemma AddedQueueIsListed(
      t: Table, key: Key, namespace: string, uri: Uri, workers: int, seconds: real, service: string)
    requires uri.QueueUri? && uri.queueName != ""
    ensures var after := t[key := BuildSpec(Lookup(t, key), namespace, uri, workers, seconds)];
      && (key in Present(service, after) <==> service == uri.queueServiceName)
      && (forall k | k != key :: k in Present(service, after) <==> k in Present(service, t))
      && InfoOf(after, key) == (if key in t && t[key].name != ""
                                then QueueInfo(uri.queueName, t[key].messages, t[key].messagesSentPerMinute,
                                               t[key].idleWorkers)
                                else QueueInfo(uri.queueName, -1, -1.0, -1))
  {
  }

  // The keys a command names.
  function Named(c: Command): set<Key> {
    match c
    case AddQueues(m) => m.Keys
    case UpdateMessages(m) => m.Keys
    case UpdateMessagesSent(m) => m.Keys
    case UpdateIdleWorkers(m) => m.Keys
    case DeleteQueue(key) => {key}
  }

  // Over any commands, a key that none of them names keeps its queue, and one
  // that the last of them adds or deletes has the added spec or is gone.
  lemma {:induction false} CommandsTouchTheirKeys(t: Table, cs: seq<Command>, key: Key)
    ensures (forall c | c in cs :: key !in Named(c)) ==> CellOf(ApplyAll(t, cs), key) == CellOf(t, key)
    ensures cs != [] && cs[|cs| - 1].AddQueues? && key in cs[|cs| - 1].specs ==>
              CellOf(ApplyAll(t, cs), key) == Some(cs[|cs| - 1].specs[key])
    ensures cs != [] && cs[|cs| - 1] == DeleteQueue(key) ==> key !in ApplyAll(t, cs)
    decreases |cs|
  {
    if cs != [] {
      CommandsTouchTheirKeys(Apply(t, cs[0]), cs[1..], key);
      assert |cs| == 1 ==> cs[1..] == [];
      assert cs[0] in cs && forall c | c in cs[1..] :: c in cs;
    }
  }

  // ---------- Keys ----------

  // Two resources share a key only if they are the same, as long as
  // namespaces hold no slash.
  lemma KeysAreInjective(ns1: string, n1: string, ns2: string, n2: string)
    requires '/' !in ns1 && '/' !in ns2
    requires GetKey(ns1, n1) == GetKey(ns2, n2)
    ensures ns1 == ns2 && n1 == n2
  {
    var k1, k2 := GetKey(ns1, n1), GetKey(ns2, n2);
    assert k1[|ns1|] == '/' && k2[|ns2|] == '/';
    assert forall i | 0 <= i < |ns1| :: k1[i] == ns1[i] && ns1[i] != '/';
    assert forall i | 0 <= i < |ns2| :: k2[i] == ns2[i] && ns2[i] != '/';
    assert |ns1| == |ns2|;
    assert k1[..|ns1|] == ns1 && k2[..|ns2|] == ns2;
    assert k1[|ns1| + 1..] == n1 && k2[|ns2| + 1..] == n2;
  }

  // ---------- The actor, seen one key at a time ----------

  // What a command means for one key.
  datatype KeyCommand =
    | Put(spec: QueueSpec)
    | SetMessages(count: int)
    | SetMessagesSent(rate: real)
    | SetIdleWorkers(idle: int)
    | Remove

  function CellOf(t: Table, key: Key): Option<QueueSpec> {
    if key in t then Some(t[key]) else None
  }

  function OnKey(c: Command, key: Key): seq<KeyCommand> {
    match c
    case AddQueues(m) => if key in m then [Put(m[key])] else []
    case UpdateMessages(m) => if key in m then [SetMessages(m[key])] else []
    case UpdateMessagesSent(m) => if key in m then [SetMessagesSent(m[key])] else []
    case UpdateIdleWorkers(m) => if key in m then [SetIdleWorkers(m[key])] else []
    case DeleteQueue(k) => if k == key then [Remove] else []
  }

  function AllOnKey(cs: seq<Command>, key: Key): seq<KeyCommand> {
    if cs == [] then [] else OnKey(cs[0], key) + AllOnKey(cs[1..], key)
  }

  function Change(cell: Option<QueueSpec>, c: KeyCommand): Option<QueueSpec> {
    match c
    case Put(spec) => Some(spec)
    case Remove => None
    case _ =>
      if cell.None? then None
      else match c
        case SetMessages(v) => Some(cell.value.(messages := v))
        case SetMessagesSent(v) => Some(cell.value.(messagesSentPerMinute := v))
        case SetIdleWorkers(v) => Some(cell.value.(idleWorkers := v))
  }

  function ChangeAll(cell: Option<QueueSpec>, cs: seq<KeyCommand>): Option<QueueSpec>
    decreases |cs|
  {
    if cs == [] then cell else ChangeAll(Change(cell, cs[0]), cs[1..])
  }

  lemma ApplyOnKey(t: Table, c: Command, key: Key)
    ensures CellOf(Apply(t, c), key) == ChangeAll(CellOf(t, key), OnKey(c, key))
  {
    var cs := OnKey(c, key);
    if cs != [] {
      assert cs[1..] == [];
    }
  }

  lemma {:induction false} ChangeAllAppend(cell: Option<QueueSpec>, a: seq<KeyCommand>, b: seq<KeyCommand>)
    ensures ChangeAll(cell, a + b) == ChangeAll(ChangeAll(cell, a), b)
    decreases |a|
  {
    if a == [] {
      assert a + b == b;
    } else {
      assert (a + b)[1..] == a[1..] + b;
      ChangeAllAppend(Change(cell, a[0]), a[1..], b);
    }
  }

  // The table restricted to one key runs a cell machine of its own, which sees
  // only that key's commands.
  lemma {:induction false} KeyRunsAlone(t: Table, cs: seq<Command>, key: Key)
    ensures CellOf(ApplyAll(t, cs), key) == ChangeAll(CellOf(t, key), AllOnKey(cs, key))
    decreases |cs|
  {
    if cs != [] {
      ApplyOnKey(t, cs[0], key);
      KeyRunsAlone(Apply(t, cs[0]), cs[1..], key);
      ChangeAllAppend(CellOf(t, key), OnKey(cs[0], key), AllOnKey(cs[1..], key));
    }
  }

  lemma TablesWithEqualCells(t: Table, u: Table)
    requires forall key :: CellOf(t, key) == CellOf(u, key)
    ensures t == u
  {
    assert forall key :: key in t <==> CellOf(t, key).Some?;
    assert forall key :: key in u <==> CellOf(u, key).Some?;
    assert t.Keys == u.Keys;
    forall key | key in t ensures t[key] == u[key] {
      assert CellOf(t, key) == CellOf(u, key);
    }
  }

  // Two command sequences that agree on every key's own commands, in
  // whatever way the keys are interleaved, give the same table.
  lemma EqualPerKeyMeansEqual(t: Table, a: seq<Command>, b: seq<Command>)
    requires forall key :: AllOnKey(a, key) == AllOnKey(b, key)
    ensures ApplyAll(t, a) == ApplyAll(t, b)
  {
    forall key ensures CellOf(ApplyAll(t, a), key) == CellOf(ApplyAll(t, b), key) {
      KeyRunsAlone(t, a, key);
      KeyRunsAlone(t, b, key);
    }
    TablesWithEqualCells(ApplyAll(t, a), ApplyAll(t, b));
  }

  // In particular neighbouring commands without a common key commute.
  lemma DisjointCommandsCommute(t: Table, c: Command, d: Command)
    requires forall key :: OnKey(c, key) == [] || OnKey(d, key) == []
    ensures Apply(Apply(t, c), d) == Apply(Apply(t, d), c)
  {
    forall key ensures AllOnKey([c, d], key) == AllOnKey([d, c], key) {
      assert [c, d][1..] == [d] && [d, c][1..] == [c];
    }
    EqualPerKeyMeansEqual(t, [c, d], [d, c]);
    ApplyTwo(t, c, d);
    ApplyTwo(t, d, c);
  }

  lemma ApplyTwo(t: Table, c: Command, d: Command)
    ensures ApplyAll(t, [c, d]) == Apply(Apply(t, c), d)
  {
    var u := Apply(t, c);
    assert [c, d][1..] == [d];
    assert ApplyAll(t, [c, d]) == ApplyAll(u, [d]);
    assert [d][1..] == [];
    assert ApplyAll(Apply(u, d), []) == Apply(u, d);
  }

  // After a delete, nothing but an Add of the same key brings it back.
  lemma {:induction false} OnlyAddRevives(cs: seq<KeyCommand>)
    requires forall i | 0 <= i < |cs| :: !cs[i].Put?
    ensures ChangeAll(None, cs) == None
  {
    if cs != [] {
      OnlyAddRevives(cs[1..]);
    }
  }

  lemma DeletedStaysDeleted(t: Table, key: Key, cs: seq<Command>)
    requires forall i | 0 <= i < |AllOnKey(cs, key)| :: !AllOnKey(cs, key)[i].Put?
    ensures key !in ApplyAll(t, [DeleteQueue(key)] + cs)
  {
    var all := [DeleteQueue(key)] + cs;
    assert all[0] == DeleteQueue(key) && all[1..] == cs;
    var after := Apply(t, DeleteQueue(key));
    KeyRunsAlone(after, cs, key);
    OnlyAddRevives(AllOnKey(cs, key));
  }

  // The sent value is in the one field the update is for, and nothing else moved.
  predicate OnlyMetricSet(key: Key, before: QueueSpec, after: QueueSpec, c: Command) {
    match c
    case UpdateMessages(m) => after == if key in m then before.(messages := m[key]) else before
    case UpdateMessagesSent(m) => after == if key in m then before.(messagesSentPerMinute := m[key]) else before
    case UpdateIdleWorkers(m) => after == if key in m then before.(idleWorkers := m[key]) else before
    case _ => false
  }

  // A metric update stores its value in one field of the keys it names that
  // are there, and does nothing else.
  lemma MetricUpdatesOneField(t: Table, c: Command)
    requires c.UpdateMessages? || c.UpdateMessagesSent? || c.UpdateIdleWorkers?
    ensures Apply(t, c).Keys == t.Keys
    ensures forall k | k in t :: OnlyMetricSet(k, t[k], Apply(t, c)[k], c)
  {
  }

  // The commands that decide a key's message count: everything but updates
  // of the other two metrics.
  function ForMessages(cs: seq<KeyCommand>): seq<KeyCommand> {
    if cs == [] then []
    else (if cs[0].SetMessagesSent? || cs[0].SetIdleWorkers? then [] else [cs[0]]) + ForMessages(cs[1..])
  }

  function Messages(cell: Option<QueueSpec>): Option<int> {
    if cell.None? then None else Some(cell.value.messages)
  }

  // Updates of rate and idle workers never influence the message count.
  lemma {:induction false} MessagesIgnoreOtherMetrics(a: Option<QueueSpec>, b: Option<QueueSpec>, cs: seq<KeyCommand>)
    requires Messages(a) == Messages(b)
    ensures Messages(ChangeAll(a, cs)) == Messages(ChangeAll(b, ForMessages(cs)))
    decreases |cs|
  {
    if cs != [] {
      if cs[0].SetMessagesSent? || cs[0].SetIdleWorkers? {
        assert ForMessages(cs) == ForMessages(cs[1..]);
        MessagesIgnoreOtherMetrics(Change(a, cs[0]), b, cs[1..]);
      } else {
        assert ForMessages(cs)[1..] == ForMessages(cs[1..]);
        MessagesIgnoreOtherMetrics(Change(a, cs[0]), Change(b, cs[0]), cs[1..]);
      }
    }
  }

  // The last value sent for each metric, or the given one.
  function LastMessages(cs: seq<KeyCommand>, v: int): int {
    if cs == [] then v else LastMessages(cs[1..], if cs[0].SetMessages? then cs[0].count else v)
  }

  function LastMessagesSent(cs: seq<KeyCommand>, v: real): real {
    if cs == [] then v else LastMessagesSent(cs[1..], if cs[0].SetMessagesSent? then cs[0].rate else v)
  }

  function LastIdleWorkers(cs: seq<KeyCommand>, v: int): int {
    if cs == [] then v else LastIdleWorkers(cs[1..], if cs[0].SetIdleWorkers? then cs[0].idle else v)
  }

  // Between adds and deletes, each metric holds the last value sent for it.
  lemma {:induction false} LastUpdatesWin(spec: QueueSpec, cs: seq<KeyCommand>)
    requires forall c | c in cs :: !c.Put? && !c.Remove?
    ensures ChangeAll(Some(spec), cs) == Some(spec.(
              messages := LastMessages(cs, spec.messages),
              messagesSentPerMinute := LastMessagesSent(cs, spec.messagesSentPerMinute),
              idleWorkers := LastIdleWorkers(cs, spec.idleWorkers)))
    decreases |cs|
  {
    if cs != [] {
      LastUpdatesWin(Change(Some(spec), cs[0]).value, cs[1..]);
    }
  }
}
