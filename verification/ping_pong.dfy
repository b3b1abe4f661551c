/** The `PingPong` facade (src/pingpong.js:15-69): `subscribe`, `unsubscribe` and the
    dispatch `publish` runs over `SubscribersMap.eachDepth`.

    Invoking a subscriber is modelled as recording its id: `publish` returns the
    trace of `runCallback` calls it makes, one batch per call, in order. Within one
    callback map the source fires in `for…in` key order, which is left unspecified
    here, so a batch holds a set of ids. */
module PingPong {
  import opened Outcomes
  import opened Topics
  import opened Trie
  import opened SubscribersMap

  /** Which `runCallback` call of a visit a batch comes from: the one on the parent's
      `'*'` entry (src/pingpong.js:61) or the one on the node itself (line 64). */
  datatype Kind = WildcardRun | ExactRun

  /** The ids one `runCallback` call fires, and the depth of the visit it belongs to. */
  datatype Batch = Batch(kind: Kind, depth: nat, ids: set<CallbackId>)

  /** The ids stored by `subscribe('*', …)`: the callback map of the root's `'*'` node. */
  function RootWildcardIds(root: Node): set<CallbackId> {
    if Wildcard in root.children then root.children[Wildcard].callbacks.Keys else {}
  }

  /** The subscribers `runCallback(parentMap['*'])` fires. At the root, `'*'` is an
      ordinary child node and its callback map holds them. Below the root, `'*'` is
      the empty object `_createMap` seeds, which holds no callback map. */
  function WildcardIds(parent: Node, atRoot: bool): set<CallbackId> {
    if atRoot then RootWildcardIds(parent) else {}
  }

  /** The subscribers `runCallback(currentMap)` fires: the ids in the node's callback
      map. A slot has no callback map. */
  function ExactIds(current: Place): set<CallbackId> {
    match current
    case At(n) => n.callbacks.Keys
    case Slot(_) => {}
  }

  /** The `eachDepth` callback of `publish` (src/pingpong.js:60-65) applied to the
      visits from `depth` on: at every visit fire the parent's `'*'` subscribers, and
      at the last depth then the node's own subscribers. */
  function Fire(visits: seq<Visit>, depth: nat): (trace: seq<Batch>)
    requires forall j :: 0 <= j < |visits| - 1 ==> !visits[j].isLast
    ensures |trace| == |visits| + (if |visits| > 0 && visits[|visits| - 1].isLast then 1 else 0)
    ensures forall j :: 0 <= j < |visits| ==>
              trace[j] == Batch(WildcardRun, depth + j, WildcardIds(visits[j].parent, depth + j == 0))
    ensures |visits| > 0 && visits[|visits| - 1].isLast ==>
              trace[|visits|] == Batch(ExactRun, depth + |visits| - 1, ExactIds(visits[|visits| - 1].current))
    decreases |visits|
  {
    if visits == [] then []
    else
      var v := visits[0];
      var here := [Batch(WildcardRun, depth, WildcardIds(v.parent, depth == 0))]
                  + (if v.isLast then [Batch(ExactRun, depth, ExactIds(v.current))] else []);
      here + Fire(visits[1..], depth + 1)
  }

  /** `publish` (src/pingpong.js:48-67) with `eachDepth` as intended. With
      `segments` the split topic and k the longest prefix that leads somewhere:
      batches 0 .. k-1 are the `'*'` runs of depths 0 .. k-1 (only depth 0, whose
      parent is the root, can fire anyone), and when the whole path exists one last
      batch runs the terminal node's subscribers. */
  function Publish(root: Node, topic: string): (trace: seq<Batch>)
    requires Walkable(Split(topic))
    ensures |trace| <= |Split(topic)| + 1
    ensures forall j :: 0 <= j < |Split(topic)| ==>
              (Resolve(root, true, Split(topic)[..j + 1]).Some? <==> j < |trace| && trace[j].kind == WildcardRun)
    ensures forall j :: 0 <= j < |trace| ==>
              (trace[j].kind == ExactRun <==> j == |Split(topic)|)
    ensures forall j :: 0 <= j < |trace| && trace[j].kind == WildcardRun ==>
              trace[j].depth == j && trace[j].ids == (if j == 0 then RootWildcardIds(root) else {})
    ensures |trace| == |Split(topic)| + 1 <==> Resolve(root, true, Split(topic)).Some?
    ensures |trace| == |Split(topic)| + 1 ==>
              trace[|Split(topic)|] == Batch(ExactRun, |Split(topic)| - 1, ExactIds(Resolve(root, true, Split(topic)).value))
  {
    var segments := Split(topic);
    var visits := EachDepth(root, topic);
    assert segments[..|segments|] == segments;
    Fire(visits, 0)
  }

  /** One firing when `b` holds, none otherwise. */
  function Once(b: bool): nat {
    if b then 1 else 0
  }

  /** How many batches of a trace fire `id`. */
  function Count(trace: seq<Batch>, id: CallbackId): nat
    decreases |trace|
  {
    if trace == [] then 0
    else (if id in trace[0].ids then 1 else 0) + Count(trace[1..], id)
  }

  lemma {:induction false} CountAppend(a: seq<Batch>, b: seq<Batch>, id: CallbackId)
    ensures Count(a + b, id) == Count(a, id) + Count(b, id)
    decreases |a|
  {
    if a == [] {
      assert a + b == b;
    } else {
      assert (a + b)[0] == a[0];
      assert (a + b)[1..] == a[1..] + b;
      CountAppend(a[1..], b, id);
    }
  }

  lemma {:induction false} CountNone(trace: seq<Batch>, id: CallbackId)
    requires forall j :: 0 <= j < |trace| ==> id !in trace[j].ids
    ensures Count(trace, id) == 0
    decreases |trace|
  {
    if trace != [] {
      CountNone(trace[1..], id);
    }
  }

  /** Counting over a trace whose batches strictly between the first and the `n`-th
      fire nobody. */
  lemma CountEnds(trace: seq<Batch>, n: nat, id: CallbackId)
    requires 1 <= n && |trace| <= n + 1
    requires forall j :: 1 <= j < |trace| && j < n ==> trace[j].ids == {}
    ensures Count(trace, id) == (if |trace| > 0 && id in trace[0].ids then 1 else 0)
                              + (if |trace| == n + 1 && id in trace[n].ids then 1 else 0)
  {
    if trace != [] {
      var wild := if |trace| == n + 1 then n else |trace|;
      assert trace == [trace[0]] + trace[1..wild] + trace[wild..];
      CountAppend([trace[0]] + trace[1..wild], trace[wild..], id);
      CountAppend([trace[0]], trace[1..wild], id);
      assert Count([trace[0]], id) == if id in trace[0].ids then 1 else 0;
      forall j | 0 <= j < |trace[1..wild]|
        ensures id !in trace[1..wild][j].ids
      {
        assert trace[1..wild][j] == trace[j + 1];
      }
      CountNone(trace[1..wild], id);
      if |trace| == n + 1 {
        assert trace[wild..] == [trace[n]];
        assert Count([trace[n]], id) == if id in trace[n].ids then 1 else 0;
      } else {
        assert trace[wild..] == [];
      }
    }
  }

  /** How often `publish` fires a subscriber: once as a `'*'` subscriber when the
      topic's first segment has a node, plus once as an exact subscriber when `find`
      would return it. Nothing else fires: in particular a subscriber stored under a
      longer topic such as `some.x` never fires for `some`. */
  lemma {:induction false} PublishFires(root: Node, topic: string, id: CallbackId)
    requires Walkable(Split(topic))
    ensures Count(Publish(root, topic), id)
         == Once(id in RootWildcardIds(root) && Split(topic)[0] in root.children)
          + Once(Find(root, topic, id).Ok? && Find(root, topic, id).value.Some?)
  {
    var segments := Split(topic);
    var trace := Publish(root, topic);
    PublishFirstBatch(root, topic);
    PublishLastBatch(root, topic, id);
    CountEnds(trace, |segments|, id);
  }

  /** The first batch of a publish exists when the first segment has a node, and
      runs the root's `'*'` subscribers. */
  lemma PublishFirstBatch(root: Node, topic: string)
    requires Walkable(Split(topic))
    ensures |Publish(root, topic)| > 0 <==> Split(topic)[0] in root.children
    ensures |Publish(root, topic)| > 0 ==> Publish(root, topic)[0].ids == RootWildcardIds(root)
    ensures forall j :: 1 <= j < |Publish(root, topic)| && j < |Split(topic)| ==> Publish(root, topic)[j].ids == {}
  {
    var segments := Split(topic);
    assert segments[..1] == [segments[0]];
    assert Resolve(root, true, segments[..1]).Some? <==> segments[0] in root.children;
  }

  /** The exact batch of a publish fires `id` exactly when `find` returns it. */
  lemma PublishLastBatch(root: Node, topic: string, id: CallbackId)
    requires Walkable(Split(topic))
    ensures |Publish(root, topic)| <= |Split(topic)| + 1
    ensures (|Publish(root, topic)| == |Split(topic)| + 1 && id in Publish(root, topic)[|Split(topic)|].ids)
            <==> (Find(root, topic, id).Ok? && Find(root, topic, id).value.Some?)
  {
    var segments := Split(topic);
    var trace := Publish(root, topic);
    var place := Resolve(root, true, segments);
    if place.Some? && place.value.At? {
      assert Find(root, topic, id) == Ok(if id in place.value.node.callbacks then Some(place.value.node.callbacks[id]) else None);
    }
  }

  /** `subscribe` (src/pingpong.js:26-31): wrap the function in a callback object
      under the id `Callback.guid` produced, store it, and return the id. */
  function Subscribe(root: Node, topic: string, func: HandlerRef, id: CallbackId): (r: Effect<CallbackId>)
    requires Supported(Split(topic))
    ensures r.result.Ok? <==> !EndsInSlot(true, Split(topic))
    ensures r.result.Ok? ==> r.result.value == id && Find(r.root, topic, id) == Ok(Some(Callback(id, func)))
  {
    var added := Add(root, topic, id, Callback(id, func));
    AddThenFind(root, topic, id, Callback(id, func));
    Effect(added.root, if added.result.Ok? then Ok(id) else Err(added.result.fault))
  }

  /** `unsubscribe` (src/pingpong.js:39-41): remove by callback id. */
  function Unsubscribe(root: Node, topic: string, id: CallbackId): (r: Result<Node>)
    requires OwnKeys(Split(topic))
    ensures r.Err? <==> Find(root, topic, id).Err?
    ensures r.Ok? ==> Find(r.value, topic, id) == Ok(None)
  {
    RemoveThenFind(root, topic, id);
    Remove(root, topic, id)
  }

  // ---------------------------------------------------------------------------
  // The dispatch as written

  /** `publish` as the source is written: `eachDepth` calls `this._splitTopic`
      (src/pingpong.js:143), which is undefined, so every publish throws a TypeError
      before any subscriber runs. */
  function PublishAsWritten(root: Node, topic: string): (r: Result<seq<Batch>>)
  {
    Err(NotAFunction)
  }

  /** The `typeof` of a property value, as far as `runCallback` cares. */
  datatype JsType = ObjectType | FunctionType

  /** The own enumerable properties of the object `runCallback` is handed, each with
      the `typeof` of its value. `value` is what was read off `holder`: `undefined`,
      a node below the root (its two slots and its children are all objects), the
      `'*'` slot (an empty object) or the `':callbacks'` slot (the holder's callback
      map, whose values are callback objects). */
  function OwnPropertyTypes(holder: Node, value: Option<Place>): map<string, JsType> {
    match value
    case None => map[]
    case Some(At(n)) => map k | k in n.children.Keys + {Wildcard, CallbacksKey} :: ObjectType
    case Some(Slot(k)) =>
      if k == CallbacksKey then map id | id in holder.callbacks.Keys :: ObjectType else map[]
  }

  /** `runCallback` as written (src/pingpong.js:50-58): it calls only the properties
      whose value is a function. */
  function RunCallbackAsWritten(properties: map<string, JsType>): (fired: set<string>)
    ensures forall k :: k in fired ==> k in properties && properties[k] == FunctionType
    ensures fired == {} <==> forall k :: k in properties ==> properties[k] == ObjectType
  {
    var fired := set k | k in properties && properties[k] == FunctionType;
    assert forall k :: k in properties && properties[k] == FunctionType ==> k in fired;
    fired
  }

  /** Whatever `runCallback` is handed while walking the subscribers map, every own
      property of it is an object. Nodes and the `'*'` slot are objects
      (src/pingpong.js:122-124), and `add` stores callback objects
      (src/pingpong.js:102, 187-193), never bare functions. */
  lemma OwnPropertiesAreObjects(holder: Node, value: Option<Place>)
    ensures forall k :: k in OwnPropertyTypes(holder, value) ==> OwnPropertyTypes(holder, value)[k] == ObjectType
  {
  }

  /** One `runCallback` call during the walk fires nobody. */
  lemma SilentCall(holder: Node, value: Option<Place>)
    ensures RunCallbackAsWritten(OwnPropertyTypes(holder, value)) == {}
  {
    OwnPropertiesAreObjects(holder, value);
  }

  /** The trace `publish` would produce with `_splitTopics` but with `runCallback` as
      written. */
  function RawFire(visits: seq<Visit>, depth: nat): seq<set<string>>
    decreases |visits|
  {
    if visits == [] then []
    else
      var v := visits[0];
      var atRoot := depth == 0;
      [RunCallbackAsWritten(OwnPropertyTypes(v.parent, Child(v.parent, atRoot, Wildcard)))]
      + (if v.isLast then [RunCallbackAsWritten(OwnPropertyTypes(v.parent, Some(v.current)))] else [])
      + RawFire(visits[1..], depth + 1)
  }

  /** As written, `runCallback` fires nobody on any walk the model covers: every
      property it meets is an object, so none passes its `typeof` test. */
  lemma {:induction false} RawFireIsSilent(visits: seq<Visit>, depth: nat)
    requires forall j :: 0 <= j < |visits| - 1 ==> !visits[j].isLast
    ensures |RawFire(visits, depth)| == |Fire(visits, depth)|
    ensures forall j :: 0 <= j < |RawFire(visits, depth)| ==> RawFire(visits, depth)[j] == {}
  {
    RawFireLength(visits, depth);
    RawFireSilent(visits, depth);
  }

  /** The dispatch as written makes one `runCallback` call per batch of the intended
      one. */
  lemma {:induction false} RawFireLength(visits: seq<Visit>, depth: nat)
    requires forall j :: 0 <= j < |visits| - 1 ==> !visits[j].isLast
    ensures |RawFire(visits, depth)| == |Fire(visits, depth)|
    decreases |visits|
  {
    if visits != [] {
      RawFireLength(visits[1..], depth + 1);
    }
  }

  /** Every call of the dispatch as written fires nobody. */
  lemma {:induction false} RawFireSilent(visits: seq<Visit>, depth: nat)
    ensures forall j :: 0 <= j < |RawFire(visits, depth)| ==> RawFire(visits, depth)[j] == {}
    decreases |visits|
  {
    if visits != [] {
      var v := visits[0];
      SilentCall(v.parent, Child(v.parent, depth == 0, Wildcard));
      SilentCall(v.parent, Some(v.current));
      var wild := RunCallbackAsWritten(OwnPropertyTypes(v.parent, Child(v.parent, depth == 0, Wildcard)));
      var exact := RunCallbackAsWritten(OwnPropertyTypes(v.parent, Some(v.current)));
      var here := [wild] + (if v.isLast then [exact] else []);
      var rest := RawFire(visits[1..], depth + 1);
      RawFireSilent(visits[1..], depth + 1);
      assert RawFire(visits, depth) == here + rest;
      assert forall j :: 0 <= j < |here| ==> here[j] == {};
      assert forall j :: |here| <= j < |here + rest| ==> (here + rest)[j] == rest[j - |here|];
    }
  }

  /** Once the `_splitTopic` typo is fixed, `publish` with `runCallback` as written
      makes exactly the calls the intended `publish` makes, and every one of them
      fires nobody. */
  lemma {:induction false} PublishAsWrittenIsSilent(root: Node, topic: string)
    requires Walkable(Split(topic))
    ensures |RawFire(EachDepth(root, topic), 0)| == |Publish(root, topic)|
    ensures forall j :: 0 <= j < |RawFire(EachDepth(root, topic), 0)| ==> RawFire(EachDepth(root, topic), 0)[j] == {}
  {
    RawFireIsSilent(EachDepth(root, topic), 0);
  }
}
