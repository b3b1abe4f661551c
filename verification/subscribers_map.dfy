/** The operations of `SubscribersMap` (src/pingpong.js:89-182) over the trie. Each
    operation takes the current root `_map` and returns the new one instead of
    mutating it. */
module SubscribersMap {
  import opened Outcomes
  import opened Topics
  import opened Trie

  /** Topics none of whose segments is spelled like an `Object.prototype` property.
      Such a segment reads an inherited value (`constructor` is a function) where
      the model finds no node. Every operation needs this. */
  predicate OwnKeys(segments: seq<string>) {
    forall i :: 0 <= i < |segments| ==> segments[i] !in InheritedKeys
  }

  /** The topics `add` is modelled for. Besides `OwnKeys`, no reserved key may
      stand in a middle position below the root. For such a topic (`a.*.b`)
      `_structureMap` creates nodes inside the `'*'` object or inside a callback
      map, which the trie datatype does not represent. */
  predicate Supported(segments: seq<string>) {
    && OwnKeys(segments)
    && NoInnerSlot(true, segments)
  }

  /** The topics `eachDepth` is modelled for. Besides `OwnKeys`, no `':callbacks'`
      may stand in a middle position below the root. Walking on below a callback
      map can visit a stored callback object, which the trie datatype does not
      hold. An inner `'*'` is fine: the walk reads `undefined` right after it. */
  predicate Walkable(segments: seq<string>) {
    && OwnKeys(segments)
    && forall i :: 0 < i < |segments| - 1 ==> segments[i] != CallbacksKey
  }

  /** The new root together with what the call returned or threw. A call that throws
      part-way keeps the changes it made before throwing. */
  datatype Effect<+T> = Effect(root: Node, result: Result<T>)

  /** `add` (src/pingpong.js:99-103): build the path, then store the callback under
      its id in the terminal node's callback map. When the last segment below the
      root is `'*'` or `':callbacks'`, `_getCallbacks` returns `undefined` and the
      store throws, but the nodes `_structureMap` created stay. */
  function Add(root: Node, topic: string, id: CallbackId, callback: Callback): (r: Effect<()>)
    requires Supported(Split(topic))
    ensures r.result.Ok? <==> !EndsInSlot(true, Split(topic))
    ensures r.result.Err? ==> r.result.fault == NoCallbackMap
  {
    var segments := Split(topic);
    var built := Structure(root, true, segments);
    StructureBuilds(root, true, segments);
    match CallbacksAt(built, true, segments)
    case Err(fault) => Effect(built, Err(fault))
    case Ok(callbacks) => Effect(SetCallbacks(built, true, segments, callbacks[id := callback]), Ok(()))
  }

  /** `find` (src/pingpong.js:173-176): `undefined` (None) when the id is not in the
      callback map; a TypeError when the path was never built or ends in a slot. */
  function Find(root: Node, topic: string, id: CallbackId): (r: Result<Option<Callback>>)
    requires OwnKeys(Split(topic))
    ensures r == Err(MissingNode) <==> Resolve(root, true, Split(topic)).None?
    ensures r == Err(NoCallbackMap) <==> Resolve(root, true, Split(topic)).Some? && EndsInSlot(true, Split(topic))
  {
    var segments := Split(topic);
    ResolveSlot(root, segments);
    match CallbacksAt(root, true, segments)
    case Err(fault) => Err(fault)
    case Ok(callbacks) => Ok(if id in callbacks then Some(callbacks[id]) else None)
  }

  /** `remove` (src/pingpong.js:162-167): `delete callbacks[id]`. It fails exactly
      as `find` does, and prunes nothing. */
  function Remove(root: Node, topic: string, id: CallbackId): (r: Result<Node>)
    requires OwnKeys(Split(topic))
    ensures r.Err? <==> Find(root, topic, id).Err?
    ensures r.Err? ==> r.fault == Find(root, topic, id).fault
  {
    var segments := Split(topic);
    match CallbacksAt(root, true, segments)
    case Err(fault) => Err(fault)
    case Ok(callbacks) => Ok(SetCallbacks(root, true, segments, callbacks - {id}))
  }

  /** `reset` (src/pingpong.js:178-180): a fresh root with no node below it. */
  function Reset(): (root: Node)
    ensures Valid(root, true)
    ensures |root.children| == 0
  {
    Empty
  }

  /** A walk from the root ends in a slot exactly when it gets to the end and the
      last segment below the root is reserved. */
  lemma ResolveSlot(root: Node, segments: seq<string>)
    ensures Resolve(root, true, segments).Some? && Resolve(root, true, segments).value.Slot?
            <==> Resolve(root, true, segments).Some? && EndsInSlot(true, segments)
  {
    ResolveSlotFrom(root, true, segments);
  }

  lemma {:induction false} ResolveSlotFrom(n: Node, atRoot: bool, path: seq<string>)
    ensures Resolve(n, atRoot, path).Some? && Resolve(n, atRoot, path).value.Slot?
            <==> Resolve(n, atRoot, path).Some? && EndsInSlot(atRoot, path)
    decreases |path|
  {
    if path != [] && !IsSlot(atRoot, path[0]) && path[0] in n.children {
      ResolveSlotFrom(n.children[path[0]], false, path[1..]);
      if |path| > 1 {
        assert path[1..][|path[1..]| - 1] == path[|path| - 1];
      }
    }
  }

  // ---------------------------------------------------------------------------
  // add

  /** After a successful `add`, `find` returns the stored callback; `add` fails
      only when the path ends in a reserved slot below the root. */
  lemma {:induction false} AddThenFind(root: Node, topic: string, id: CallbackId, callback: Callback)
    requires Supported(Split(topic))
    ensures Add(root, topic, id, callback).result.Ok? ==> Find(Add(root, topic, id, callback).root, topic, id) == Ok(Some(callback))
  {
    var segments := Split(topic);
    var built := Structure(root, true, segments);
    StructureBuilds(root, true, segments);
    if CallbacksAt(built, true, segments).Ok? {
      var callbacks := CallbacksAt(built, true, segments).value;
      SetKeeps(built, true, segments, callbacks[id := callback], segments);
    }
  }

  /** A second `add` with the same topic and id leaves the map exactly as if only the
      second had happened: the later callback overwrites the earlier one. */
  lemma {:induction false} AddOverwrites(root: Node, topic: string, id: CallbackId, first: Callback, second: Callback)
    requires Supported(Split(topic))
    ensures Add(Add(root, topic, id, first).root, topic, id, second) == Add(root, topic, id, second)
  {
    var segments := Split(topic);
    var built := Structure(root, true, segments);
    StructureBuilds(root, true, segments);
    if CallbacksAt(built, true, segments).Ok? {
      var callbacks := CallbacksAt(built, true, segments).value;
      var withFirst: map<CallbackId, Callback> := callbacks[id := first];
      var withSecond: map<CallbackId, Callback> := withFirst[id := second];
      assert withSecond == callbacks[id := second];
      var once := SetCallbacks(built, true, segments, withFirst);
      SetKeeps(built, true, segments, withFirst, segments);
      StructureExisting(once, true, segments);
      SetTwice(built, true, segments, withFirst, withSecond);
    } else {
      StructureExisting(built, true, segments);
    }
  }

  /** `add` changes no other entry: every (topic, id) pair whose path existed before
      finds the same thing afterwards (src/pingpong.js:116 keeps existing nodes). */
  lemma {:induction false} AddKeeps(root: Node, topic: string, id: CallbackId, callback: Callback, other: string, otherId: CallbackId)
    requires Supported(Split(topic)) && OwnKeys(Split(other))
    requires other != topic || otherId != id
    requires Find(root, other, otherId) != Err(MissingNode)
    ensures Find(Add(root, topic, id, callback).root, other, otherId) == Find(root, other, otherId)
  {
    var segments := Split(topic);
    var path := Split(other);
    var built := Structure(root, true, segments);
    StructureKeeps(root, true, segments, path);
    StructureBuilds(root, true, segments);
    if CallbacksAt(built, true, segments).Ok? {
      var callbacks := CallbacksAt(built, true, segments).value;
      SetKeeps(built, true, segments, callbacks[id := callback], path);
      if path == segments {
        SplitInjective(other, topic);
      }
    }
  }

  /** The only nodes `add` creates lie along the added topic's path, and the only
      callback found under them is the one just added. */
  lemma {:induction false} AddOnlyAlong(root: Node, topic: string, id: CallbackId, callback: Callback, other: string, otherId: CallbackId)
    requires Supported(Split(topic)) && OwnKeys(Split(other))
    requires Find(root, other, otherId).Err?
    ensures Find(Add(root, topic, id, callback).root, other, otherId).Ok? ==>
              && Split(other) <= Split(topic)
              && (Find(Add(root, topic, id, callback).root, other, otherId) == Ok(None) || (other == topic && otherId == id))
  {
    var segments := Split(topic);
    var path := Split(other);
    var built := Structure(root, true, segments);
    StructureOnlyAlong(root, true, segments, path);
    StructureBuilds(root, true, segments);
    if CallbacksAt(built, true, segments).Ok? {
      var callbacks := CallbacksAt(built, true, segments).value;
      SetKeeps(built, true, segments, callbacks[id := callback], path);
      if path == segments {
        SplitInjective(other, topic);
        assert CallbacksAt(root, true, segments).Err?;
        StructureOnlyAlong(root, true, segments, segments);
      }
    }
  }

  /** `add` keeps the shape `_createMap` gives the map, even when it throws. */
  lemma AddValid(root: Node, topic: string, id: CallbackId, callback: Callback)
    requires Supported(Split(topic))
    requires Valid(root, true)
    ensures Valid(Add(root, topic, id, callback).root, true)
  {
    var segments := Split(topic);
    var built := Structure(root, true, segments);
    StructureValid(root, true, segments);
    StructureBuilds(root, true, segments);
    if CallbacksAt(built, true, segments).Ok? {
      SetValid(built, true, segments, CallbacksAt(built, true, segments).value[id := callback]);
    }
  }

  // ---------------------------------------------------------------------------
  // remove

  /** After a successful `remove`, `find` reports the id absent. */
  lemma RemoveThenFind(root: Node, topic: string, id: CallbackId)
    requires OwnKeys(Split(topic))
    ensures Remove(root, topic, id).Ok? ==> Find(Remove(root, topic, id).value, topic, id) == Ok(None)
  {
    var segments := Split(topic);
    if CallbacksAt(root, true, segments).Ok? {
      SetKeeps(root, true, segments, CallbacksAt(root, true, segments).value - {id}, segments);
    }
  }

  /** `remove` changes no other entry and no node: every other (topic, id) pair,
      including those whose path does not exist, finds the same thing afterwards. */
  lemma RemoveKeeps(root: Node, topic: string, id: CallbackId, other: string, otherId: CallbackId)
    requires OwnKeys(Split(topic)) && OwnKeys(Split(other))
    requires other != topic || otherId != id
    ensures Remove(root, topic, id).Ok? ==> Find(Remove(root, topic, id).value, other, otherId) == Find(root, other, otherId)
  {
    var segments := Split(topic);
    var path := Split(other);
    if CallbacksAt(root, true, segments).Ok? {
      SetKeeps(root, true, segments, CallbacksAt(root, true, segments).value - {id}, path);
      if path == segments {
        SplitInjective(other, topic);
      }
    }
  }

  /** Removing an id that is not there, on a path that exists, changes nothing. */
  lemma RemoveAbsent(root: Node, topic: string, id: CallbackId)
    requires OwnKeys(Split(topic))
    requires Find(root, topic, id) == Ok(None)
    ensures Remove(root, topic, id) == Ok(root)
  {
    var segments := Split(topic);
    var callbacks := CallbacksAt(root, true, segments).value;
    assert callbacks - {id} == callbacks;
    SetUnchanged(root, true, segments);
  }

  /** `remove` keeps the shape `_createMap` gives the map. */
  lemma RemoveValid(root: Node, topic: string, id: CallbackId)
    requires OwnKeys(Split(topic))
    requires Valid(root, true)
    ensures Remove(root, topic, id).Ok? ==> Valid(Remove(root, topic, id).value, true)
  {
    var segments := Split(topic);
    if CallbacksAt(root, true, segments).Ok? {
      SetValid(root, true, segments, CallbacksAt(root, true, segments).value - {id});
    }
  }

  // ---------------------------------------------------------------------------
  // reset

  /** After `reset` no topic has a node, so every lookup fails and nothing
      previously stored can be found. */
  lemma ResetForgets(topic: string, id: CallbackId)
    requires OwnKeys(Split(topic))
    ensures Resolve(Reset(), true, Split(topic)) == None
    ensures Find(Reset(), topic, id) == Err(MissingNode)
  {
  }

  // ---------------------------------------------------------------------------
  // eachDepth

  /** One call of the `eachDepth` callback: its `msgName`, `currentMap`, `parentMap`
      and `isLastDepth` arguments. */
  datatype Visit = Visit(segment: string, current: Place, parent: Node, isLast: bool)

  /** What a walk from `parent` over `rest` visits. Visit `j` is for segment `j`: its
      place is where the first `j + 1` segments lead, and its parent is the node the
      first `j` lead to. Only the visit for the last segment is marked last. The walk
      stops early only where the next prefix leads nowhere. */
  predicate Walked(parent: Node, atRoot: bool, rest: seq<string>, visits: seq<Visit>) {
    && |visits| <= |rest|
    && (forall j :: 0 <= j < |visits| ==>
          && visits[j].segment == rest[j]
          && visits[j].isLast == (j == |rest| - 1)
          && Resolve(parent, atRoot, rest[..j + 1]) == Some(visits[j].current)
          && Resolve(parent, atRoot, rest[..j]) == Some(At(visits[j].parent)))
    && (|visits| < |rest| ==> Resolve(parent, atRoot, rest[..|visits| + 1]) == None)
  }

  /** The loop of `eachDepth` (src/pingpong.js:149-159) from `parent` over the
      remaining segments: look the segment up, stop before visiting when it is
      missing, otherwise visit it and descend. */
  function VisitFrom(parent: Node, atRoot: bool, rest: seq<string>): (visits: seq<Visit>)
    ensures Walked(parent, atRoot, rest, visits)
    decreases |rest|
  {
    if rest == [] then []
    else
      var isLast := |rest| == 1;
      match Child(parent, atRoot, rest[0])
      case None =>
        assert rest[..1][1..] == [];
        []
      case Some(At(c)) =>
        var deeper := VisitFrom(c, false, rest[1..]);
        DescendVisit(parent, atRoot, rest, c, deeper);
        [Visit(rest[0], At(c), parent, isLast)] + deeper
      case Some(Slot(k)) =>
        // nothing lives below a slot: the next lookup, if any, is `undefined`
        assert |rest| > 1 ==> |rest[..2]| == 2 && rest[..2][0] == rest[0];
        [Visit(rest[0], Slot(k), parent, isLast)]
  }

  /** Visiting a child node and then walking below it is a walk from the parent. */
  lemma DescendVisit(parent: Node, atRoot: bool, rest: seq<string>, c: Node, deeper: seq<Visit>)
    requires rest != [] && Child(parent, atRoot, rest[0]) == Some(At(c))
    requires Walked(c, false, rest[1..], deeper)
    ensures Walked(parent, atRoot, rest, [Visit(rest[0], At(c), parent, |rest| == 1)] + deeper)
  {
    var visits := [Visit(rest[0], At(c), parent, |rest| == 1)] + deeper;
    forall j | 0 <= j <= |rest| - 1
      ensures Resolve(parent, atRoot, rest[..j + 1]) == Resolve(c, false, rest[1..][..j])
    {
      assert rest[..j + 1][0] == rest[0];
      assert rest[..j + 1][1..] == rest[1..][..j];
    }
    forall j | 1 <= j < |visits|
      ensures visits[j] == deeper[j - 1]
      ensures visits[j].segment == rest[j]
      ensures Resolve(parent, atRoot, rest[..j + 1]) == Some(visits[j].current)
      ensures Resolve(parent, atRoot, rest[..j]) == Some(At(visits[j].parent))
    {
      assert rest[1..][j - 1] == rest[j];
      assert Resolve(parent, atRoot, rest[..j + 1]) == Resolve(c, false, rest[1..][..j]);
      assert Resolve(c, false, rest[1..][..(j - 1) + 1]) == Some(deeper[j - 1].current);
    }
    assert rest[..1] == [rest[0]];
    assert Resolve(parent, atRoot, rest[..1]) == Some(At(c));
    assert rest[..0] == [];
  }

  /** `eachDepth` (src/pingpong.js:141-160). The source calls `this._splitTopic`,
      which is not defined; the intended `_splitTopics` is used here (see
      `PingPong.PublishAsWritten`). It visits depths 0 .. k-1 in order, where k is the
      length of the longest prefix of the topic that leads somewhere; `isLastDepth`
      holds only at depth `len - 1`. */
  function EachDepth(root: Node, topic: string): (visits: seq<Visit>)
    requires Walkable(Split(topic))
    ensures Walked(root, true, Split(topic), visits)
    ensures forall j :: |visits| < j <= |Split(topic)| ==> Resolve(root, true, Split(topic)[..j]) == None
  {
    var segments := Split(topic);
    var visits := VisitFrom(root, true, segments);
    MissingStaysMissing(root, segments, |visits|);
    visits
  }

  /** Once a prefix of a path leads nowhere, every longer prefix leads nowhere. */
  lemma MissingStaysMissing(root: Node, segments: seq<string>, k: nat)
    requires k < |segments| ==> Resolve(root, true, segments[..k + 1]) == None
    ensures forall j :: k < j <= |segments| ==> Resolve(root, true, segments[..j]) == None
  {
    forall j | k < j <= |segments|
      ensures Resolve(root, true, segments[..j]) == None
    {
      assert segments[..j] == segments[..k + 1] + segments[k + 1..j];
      ResolveNoneExtends(root, true, segments[..k + 1], segments[k + 1..j]);
    }
  }

  lemma {:induction false} ResolveNoneExtends(n: Node, atRoot: bool, path: seq<string>, more: seq<string>)
    requires Resolve(n, atRoot, path) == None
    ensures Resolve(n, atRoot, path + more) == None
    decreases |path|
  {
    assert path != [];
    assert (path + more)[0] == path[0];
    assert (path + more)[1..] == path[1..] + more;
    if Child(n, atRoot, path[0]).Some? && Child(n, atRoot, path[0]).value.At? {
      ResolveNoneExtends(Child(n, atRoot, path[0]).value.node, false, path[1..], more);
    }
  }
}
