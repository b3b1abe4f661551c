/** The nested-object trie behind `SubscribersMap` (src/pingpong.js:89-182), as an
    immutable datatype.

    In the source every node below the root is a plain object made by `_createMap`
    with two pre-seeded keys: `'*'` (an empty object) and `':callbacks'` (the map of
    exact subscribers, keyed by callback id); every other key is a child node. The
    root `_map` is a bare `{}` with neither key, so at the root `'*'` and
    `':callbacks'` are ordinary child names. Here a node is its callback map plus its
    children; the two pre-seeded keys of a node below the root are not children but
    "slots", which a path walk can reach but never passes through. */
module Trie {
  import opened Outcomes

  const Wildcard: string := "*"
  const CallbacksKey: string := ":callbacks"

  /** The two keys `_createMap` pre-seeds in every node below the root. */
  predicate Reserved(key: string) {
    key == Wildcard || key == CallbacksKey
  }

  /** Keys every plain object inherits from `Object.prototype`: `obj[key]` is truthy
      for them, so a segment spelled like one of these would be mistaken for an
      existing node. Topics using them are outside this model. */
  const InheritedKeys: set<string> := {
    "constructor", "hasOwnProperty", "isPrototypeOf", "propertyIsEnumerable",
    "toLocaleString", "toString", "valueOf", "__proto__",
    "__defineGetter__", "__defineSetter__", "__lookupGetter__", "__lookupSetter__"
  }

  predicate IsGuidDigit(c: char) {
    '0' <= c <= '9' || 'a' <= c <= 'v'
  }

  /** The shape of `Callback.guid()`: `'p'` followed by base-32 digits. Such an id is
      never a reserved or inherited key. */
  predicate IsGuid(s: string) {
    |s| >= 2 && s[0] == 'p' && forall i :: 1 <= i < |s| ==> IsGuidDigit(s[i])
  }

  type CallbackId = s: string | IsGuid(s) witness "p0"

  /** Stands for the identity of the function object handed to `subscribe`. */
  type HandlerRef = nat

  /** The object `Callback.create` returns: an id and the wrapped function. */
  datatype Callback = Callback(id: CallbackId, func: HandlerRef)

  datatype Node = Node(callbacks: map<CallbackId, Callback>, children: map<string, Node>)

  /** Where a path walk can stop: at a node, or at one of a node's reserved slots. */
  datatype Place = At(node: Node) | Slot(key: string)

  /** A node as `_createMap` makes it (both slots empty), and the root after `reset`. */
  const Empty: Node := Node(map[], map[])

  /** Whether `key`, read from a node, names a pre-seeded slot rather than a child. */
  predicate IsSlot(atRoot: bool, key: string) {
    !atRoot && Reserved(key)
  }

  /** `parentMap[key]` for one step of a walk: `None` is `undefined`. */
  function Child(parent: Node, atRoot: bool, key: string): Option<Place> {
    if IsSlot(atRoot, key) then Some(Slot(key))
    else if key in parent.children then Some(At(parent.children[key]))
    else None
  }

  /** The place a whole path leads to from `n`. The model stores nothing below a slot,
      so a walk that goes on past a slot finds nothing. The callback objects the
      source keeps under `':callbacks'` are not nodes; README's "Left out" line on
      `a.:callbacks.<id>` says what this leaves out. */
  function Resolve(n: Node, atRoot: bool, path: seq<string>): Option<Place>
    decreases |path|
  {
    if path == [] then Some(At(n))
    else match Child(n, atRoot, path[0])
      case None => None
      case Some(At(c)) => Resolve(c, false, path[1..])
      case Some(Slot(k)) => if |path| == 1 then Some(Slot(k)) else None
  }

  /** `_getCallbacks` (src/pingpong.js:128-139) followed by an index into its result:
      the callback map at the end of the path, or the TypeError the walk raises. */
  function CallbacksAt(n: Node, atRoot: bool, path: seq<string>): Result<map<CallbackId, Callback>> {
    match Resolve(n, atRoot, path)
    case None => Err(MissingNode)
    case Some(At(m)) => Ok(m.callbacks)
    case Some(Slot(_)) => Err(NoCallbackMap)
  }

  /** Whether a reserved key stands at some position of `path` other than the last. */
  predicate NoInnerSlot(atRoot: bool, path: seq<string>) {
    forall i :: 0 <= i < |path| - 1 ==> !IsSlot(atRoot && i == 0, path[i])
  }

  /** Whether the last key of `path` names a slot. */
  predicate EndsInSlot(atRoot: bool, path: seq<string>) {
    |path| > 0 && IsSlot(atRoot && |path| == 1, path[|path| - 1])
  }

  /** `_structureMap` (src/pingpong.js:109-119): `map[key] = map[key] || _createMap()`
      for every key of the path. An existing node is kept; a slot is truthy and so is
      kept too. */
  function Structure(n: Node, atRoot: bool, path: seq<string>): Node
    decreases |path|
  {
    if path == [] || IsSlot(atRoot, path[0]) then n
    else
      var child := if path[0] in n.children then n.children[path[0]] else Empty;
      n.(children := n.children[path[0] := Structure(child, false, path[1..])])
  }

  /** Replaces the callback map of the node at the end of `path`; the source does
      this by writing into the callback object in place. */
  function SetCallbacks(n: Node, atRoot: bool, path: seq<string>, callbacks: map<CallbackId, Callback>): Node
    requires Resolve(n, atRoot, path).Some? && Resolve(n, atRoot, path).value.At?
    decreases |path|
  {
    if path == [] then n.(callbacks := callbacks)
    else n.(children := n.children[path[0] := SetCallbacks(n.children[path[0]], false, path[1..], callbacks)])
  }

  /** The shape `_createMap` and `reset` keep: the root has no callback map, and below
      the root the reserved keys are slots, never child nodes. */
  predicate Valid(n: Node, atRoot: bool) {
    && (atRoot ==> n.callbacks == map[])
    && forall k :: k in n.children ==> !IsSlot(atRoot, k) && Valid(n.children[k], false)
  }

  // ---------------------------------------------------------------------------
  // _structureMap

  /** Structuring never removes or changes what was there: every path that led to a
      callback map (or a slot) still leads to the same one. */
  lemma {:induction false} StructureKeeps(n: Node, atRoot: bool, path: seq<string>, other: seq<string>)
    requires CallbacksAt(n, atRoot, other) != Err(MissingNode)
    ensures CallbacksAt(Structure(n, atRoot, path), atRoot, other) == CallbacksAt(n, atRoot, other)
    decreases |other|
  {
    if other != [] && path != [] && !IsSlot(atRoot, path[0]) && !IsSlot(atRoot, other[0]) && other[0] == path[0] {
      var c := n.children[other[0]];
      StructureKeeps(c, false, path[1..], other[1..]);
    }
  }

  /** After structuring, the path itself leads to a callback map (the old one, or an
      empty one if its node is new), unless its last key is a slot. */
  lemma {:induction false} StructureBuilds(n: Node, atRoot: bool, path: seq<string>)
    requires NoInnerSlot(atRoot, path)
    ensures CallbacksAt(Structure(n, atRoot, path), atRoot, path)
         == if EndsInSlot(atRoot, path) then Err(NoCallbackMap)
            else Ok(if CallbacksAt(n, atRoot, path).Ok? then CallbacksAt(n, atRoot, path).value else map[])
    decreases |path|
  {
    if path != [] && !IsSlot(atRoot, path[0]) {
      var child := if path[0] in n.children then n.children[path[0]] else Empty;
      assert NoInnerSlot(false, path[1..]) by {
        forall i | 0 <= i < |path[1..]| - 1
          ensures !IsSlot(false && i == 0, path[1..][i])
        {
          assert path[1..][i] == path[i + 1];
        }
      }
      StructureBuilds(child, false, path[1..]);
      if |path| > 1 {
        assert path[1..][|path[1..]| - 1] == path[|path| - 1];
      }
    }
  }

  /** The only callback maps structuring creates are empty ones along the path. */
  lemma {:induction false} StructureOnlyAlong(n: Node, atRoot: bool, path: seq<string>, other: seq<string>)
    requires CallbacksAt(n, atRoot, other).Err?
    ensures CallbacksAt(Structure(n, atRoot, path), atRoot, other).Ok? ==>
              other <= path && CallbacksAt(Structure(n, atRoot, path), atRoot, other).value == map[]
    decreases |other|
  {
    if other != [] && path != [] && !IsSlot(atRoot, path[0]) && !IsSlot(atRoot, other[0]) && other[0] == path[0] {
      var child := if path[0] in n.children then n.children[path[0]] else Empty;
      if |other| > 1 || path[0] in n.children {
        StructureOnlyAlong(child, false, path[1..], other[1..]);
      } else {
        var built := Structure(n, atRoot, path);
        assert built.children[path[0]] == Structure(Empty, false, path[1..]);
        assert Structure(Empty, false, path[1..]).callbacks == map[];
        assert Resolve(built, atRoot, other) == Resolve(built.children[path[0]], false, []);
        assert other == path[..1];
      }
    }
  }

  /** Structuring a path that already leads somewhere changes nothing. */
  lemma {:induction false} StructureExisting(n: Node, atRoot: bool, path: seq<string>)
    requires Resolve(n, atRoot, path).Some?
    ensures Structure(n, atRoot, path) == n
    decreases |path|
  {
    if path != [] && !IsSlot(atRoot, path[0]) {
      var c := n.children[path[0]];
      StructureExisting(c, false, path[1..]);
      assert n.children[path[0] := c] == n.children;
    }
  }

  lemma {:induction false} StructureValid(n: Node, atRoot: bool, path: seq<string>)
    requires Valid(n, atRoot)
    ensures Valid(Structure(n, atRoot, path), atRoot)
    decreases |path|
  {
    if path != [] && !IsSlot(atRoot, path[0]) {
      var child := if path[0] in n.children then n.children[path[0]] else Empty;
      StructureValid(child, false, path[1..]);
    }
  }

  // ---------------------------------------------------------------------------
  // Writing a callback map in place

  /** Writing the callback map at `path` changes what `path` leads to and nothing else:
      every other path reaches the same callback map, slot or nothing as before. */
  lemma {:induction false} SetKeeps(n: Node, atRoot: bool, path: seq<string>, callbacks: map<CallbackId, Callback>, other: seq<string>)
    requires Resolve(n, atRoot, path).Some? && Resolve(n, atRoot, path).value.At?
    ensures CallbacksAt(SetCallbacks(n, atRoot, path, callbacks), atRoot, other)
         == if other == path then Ok(callbacks) else CallbacksAt(n, atRoot, other)
    decreases |path|
  {
    if path != [] && other != [] && other[0] == path[0] {
      SetKeeps(n.children[path[0]], false, path[1..], callbacks, other[1..]);
      assert (other == path) == (other[1..] == path[1..]) by {
        if other[1..] == path[1..] {
          assert other == [other[0]] + other[1..] && path == [path[0]] + path[1..];
        }
      }
    }
  }

  /** A second write to the same path overrides the first. */
  lemma {:induction false} SetTwice(n: Node, atRoot: bool, path: seq<string>, first: map<CallbackId, Callback>, second: map<CallbackId, Callback>)
    requires Resolve(n, atRoot, path).Some? && Resolve(n, atRoot, path).value.At?
    ensures Resolve(SetCallbacks(n, atRoot, path, first), atRoot, path).Some?
    ensures Resolve(SetCallbacks(n, atRoot, path, first), atRoot, path).value.At?
    ensures SetCallbacks(SetCallbacks(n, atRoot, path, first), atRoot, path, second) == SetCallbacks(n, atRoot, path, second)
    decreases |path|
  {
    SetKeeps(n, atRoot, path, first, path);
    if path != [] {
      SetTwice(n.children[path[0]], false, path[1..], first, second);
    }
  }

  /** Writing back the callback map that is already there changes nothing. */
  lemma {:induction false} SetUnchanged(n: Node, atRoot: bool, path: seq<string>)
    requires Resolve(n, atRoot, path).Some? && Resolve(n, atRoot, path).value.At?
    ensures SetCallbacks(n, atRoot, path, Resolve(n, atRoot, path).value.node.callbacks) == n
    decreases |path|
  {
    if path != [] {
      var c := n.children[path[0]];
      SetUnchanged(c, false, path[1..]);
      assert n.children[path[0] := c] == n.children;
    }
  }

  lemma {:induction false} SetValid(n: Node, atRoot: bool, path: seq<string>, callbacks: map<CallbackId, Callback>)
    requires Resolve(n, atRoot, path).Some? && Resolve(n, atRoot, path).value.At?
    requires Valid(n, atRoot)
    requires atRoot ==> path != []
    ensures Valid(SetCallbacks(n, atRoot, path, callbacks), atRoot)
    decreases |path|
  {
    if path != [] {
      if path[1..] != [] {
        SetValid(n.children[path[0]], false, path[1..], callbacks);
      }
    }
  }
}
