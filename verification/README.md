# PingPong subscribers map

PingPong is a small publish/subscribe library. A topic is a dot-separated string such as
`some.one`. `SubscribersMap` files every subscriber in a trie keyed by the topic's
segments. `PingPong.publish` walks that trie and runs the subscribers it meets.

This project models the trie and its operations as pure functions over an immutable
`Node` datatype. It also models the publish dispatch over the trie, and proves what each
operation does to the map and what a publish fires.

- `Trie` (trie.dfy) holds the data model and the walks over it:
  - Every node below the root is the object `_createMap` creates: the two slots `'*'`
    and `':callbacks'`, plus child nodes.
  - The root is the plain object `reset` leaves. It has no slots, so at the root `'*'`
    and `':callbacks'` are ordinary child names.
  - A callback map is the contents of a node's `':callbacks'` slot.
  - `Resolve` is the value the source reads at the end of a path of property lookups.
  - `Structure` is `_structureMap`. `CallbacksAt` is `_getCallbacks` followed by an index.
- `Topics` (topics.dfy) models `_splitTopics`, which is `topic.split('.')`, and its inverse.
- `SubscribersMap` (subscribers_map.dfy) models `add`, `find`, `remove`, `reset` and
  `eachDepth`:
  - Each operation returns the new root instead of mutating `_map`.
  - A TypeError the source would throw becomes a `Fault`.
  - `add` keeps the nodes it created even when it throws, so it returns both the new
    root and the outcome (`Effect`).
- `PingPong` (ping_pong.dfy) models `subscribe`, `unsubscribe` and `publish`:
  - A publish is described by its trace: one `Batch` per `runCallback` call, holding
    the ids of the subscribers that call runs.
  - It also holds the dispatch exactly as written, which differs; see Findings.
    `PublishAsWritten` is `publish` as written (src/pingpong.js:141-143): the call
    to the undefined `_splitTopic` throws. `RawFire` is the dispatch with that
    name fixed but `runCallback` as written (src/pingpong.js:50-66). It lists the
    set of property names each `runCallback` call invokes.
  - `OwnPropertyTypes` gives the `typeof` of each own property of a value
    `runCallback` is handed.
- `Scenarios` (scenarios.dfy) replays the QUnit cases of `test/pingpong.test.js` on
  the model.

## Model

| member | source | states |
|---|---|---|
| Topics.Split | src/pingpong.js:105-107 | a topic splits into at least one segment, no segment contains `.`, and joining the segments with `.` gives back the topic |
| Topics.SplitJoin | src/pingpong.js:105-107 | splitting undoes joining for any non-empty list of dot-free segments, so every such list is the split of some topic |
| Topics.SplitInjective | src/pingpong.js:105-107 | two topics with the same segments are the same topic |
| Trie.StructureBuilds | src/pingpong.js:109-119 | after `_structureMap` the path leads to a callback map: the one already there, or an empty one. The exception is a path ending in `'*'` or `':callbacks'` below the root, which leads to a slot with no callback map |
| Trie.StructureKeeps | src/pingpong.js:116 | `_structureMap` never replaces an existing node: every path that led somewhere leads to the same callbacks afterwards |
| Trie.StructureOnlyAlong | src/pingpong.js:109-126 | the only callback maps `_structureMap` creates are empty ones, at prefixes of the structured path |
| Trie.StructureExisting | src/pingpong.js:116 | structuring a path that already exists leaves the map unchanged |
| Trie.StructureValid | src/pingpong.js:121-126 | structuring keeps the `_createMap` shape: reserved keys below the root stay slots, and the root holds no callbacks |
| Trie.SetKeeps | src/pingpong.js:102 | writing into the callback map at one path changes what that path finds and nothing else |
| Trie.SetTwice | src/pingpong.js:102 | a second write to the same callback map overrides the first |
| Trie.SetUnchanged | src/pingpong.js:166 | writing back the callback map already there changes nothing |
| Trie.SetValid | src/pingpong.js:102 | writing a callback map below the root keeps the `_createMap` shape |
| SubscribersMap.Add | src/pingpong.js:99-103 | `add` succeeds exactly when the topic does not end in a reserved slot below the root; otherwise it throws because the callback map is undefined |
| SubscribersMap.Find | src/pingpong.js:173-176 | `find` throws a missing-node TypeError exactly when the topic names no node: some prefix has none, or the walk goes on below a slot. It throws a no-callback-map TypeError exactly when the path exists but ends in a slot |
| SubscribersMap.Remove | src/pingpong.js:162-167 | `remove` throws exactly when `find` throws, with the same error |
| SubscribersMap.Reset | src/pingpong.js:178-180 | `reset` leaves a well-shaped root with no node below it |
| SubscribersMap.AddThenFind | src/pingpong.js:99-103 | after a successful `add`, `find` with the same topic and id returns the stored callback |
| SubscribersMap.AddOverwrites | src/pingpong.js:102 | adding twice under the same topic and id equals adding only the second callback, throw or not |
| SubscribersMap.AddKeeps | src/pingpong.js:99-103 | `add` leaves every other (topic, id) lookup whose path existed unchanged |
| SubscribersMap.AddOnlyAlong | src/pingpong.js:99-119 | a lookup that failed before `add` can succeed afterwards only on a prefix of the added topic. It then finds nothing, except the added topic and id, which find the new callback |
| SubscribersMap.AddValid | src/pingpong.js:99-126 | `add` keeps the `_createMap` shape even when it throws |
| SubscribersMap.RemoveThenFind | src/pingpong.js:162-167 | after a successful `remove`, `find` reports the id absent |
| SubscribersMap.RemoveKeeps | src/pingpong.js:162-167 | `remove` leaves every other (topic, id) lookup unchanged, including failing ones, so it prunes no node |
| SubscribersMap.RemoveAbsent | src/pingpong.js:166 | removing an absent id from an existing path leaves the map unchanged |
| SubscribersMap.RemoveValid | src/pingpong.js:162-167 | `remove` keeps the `_createMap` shape |
| SubscribersMap.ResetForgets | src/pingpong.js:178-180 | after `reset` no topic has a node, and every `find` throws the missing-node error |
| SubscribersMap.VisitFrom | src/pingpong.js:149-159 | each visit of the walk is the node or slot at the matching prefix, with the node one level up as parent. Only the visit for the full topic is marked last. The walk stops only where the next prefix leads nowhere |
| SubscribersMap.EachDepth | src/pingpong.js:141-160 | `eachDepth` calls back once per existing prefix of the topic, in order, and never past the first missing one |
| SubscribersMap.MissingStaysMissing | src/pingpong.js:154 | once a prefix leads nowhere, every longer prefix leads nowhere, so breaking out of the loop loses no visit |
| PingPong.Fire | src/pingpong.js:60-66 | each visit runs its parent's `'*'` subscribers, and the last visit then runs the node's own subscribers, at the matching depths |
| PingPong.Publish | src/pingpong.js:48-67 | batch j is a `'*'` run exactly when prefix j+1 exists. Only the root's `'*'` run can fire anyone. There is one exact run, of the topic node's own subscribers, exactly when the whole topic exists |
| PingPong.PublishFires | src/pingpong.js:48-67 | a subscriber fires once as a root `'*'` subscriber when the topic's first segment has a node, plus once when `find` returns it, and at no other time |
| PingPong.Subscribe | src/pingpong.js:26-31 | `subscribe` returns the callback's id and makes `find` return the callback, unless the topic ends in a slot below the root |
| PingPong.Unsubscribe | src/pingpong.js:39-41 | `unsubscribe` throws exactly when `find` throws; otherwise `find` afterwards reports the id absent |
| PingPong.RunCallbackAsWritten | src/pingpong.js:50-58 | `runCallback` calls only own properties whose value is a function, and calls none of them exactly when every property's value is an object |
| PingPong.OwnPropertiesAreObjects | src/pingpong.js:187-193 | every own property of a value the walk hands to `runCallback` is an object: nodes and slots are objects, and callback maps hold the callback objects `Callback.create` builds |
| PingPong.RawFireIsSilent | src/pingpong.js:50-58 | with `runCallback` as written, the dispatch makes as many calls as the intended one, and none of them fires anybody |
| PingPong.PublishAsWrittenIsSilent | src/pingpong.js:48-67 | with the `_splitTopic` typo fixed and `runCallback` as written, `publish` makes the intended number of `runCallback` calls, all silent |
| Scenarios.SplitExamples | test/pingpong.test.js:50-108 | the test topics `some.one`, `some.two`, `some.*`, `*` and `one` split into the expected segments |
| Scenarios.NoRootWildcard | test/pingpong.test.js:78-85 | subscribing `some.one` on an empty map creates no root `'*'` node |
| Scenarios.SubscribeTwoTopics | test/pingpong.test.js:50-61 | after subscribing `some.one` and `some.two`, both callbacks are found under their ids |
| Scenarios.UnsubscribeForgets | test/pingpong.test.js:64-75 | after unsubscribing, `find` returns nothing |
| Scenarios.PublishOnce | test/pingpong.test.js:78-85 | under the corrected dispatch, publishing `some.one` fires its only subscriber exactly once |
| Scenarios.SubscribeChildWildcard | test/pingpong.test.js:87-97 | subscribing `some.*` throws, and under the corrected dispatch no later publish of any topic fires the callback |
| Scenarios.ChildWildcardLeavesNode | test/pingpong.test.js:89 | the throwing `subscribe('some.*')` leaves exactly one empty node `some` behind |
| Scenarios.NothingFiresBelowBareNode | test/pingpong.test.js:91-96 | under the corrected dispatch, a map holding only an empty `some` node fires nobody, whatever is published |
| Scenarios.SubscribeAll | test/pingpong.test.js:99-108 | `subscribe('*')` succeeds. Under the corrected dispatch, publishing `one` then fires it zero times, and publishing `*` fires it twice |
| Scenarios.SplitTopicTypo | src/pingpong.js:143 | in the 'publish' test, the publish as written throws, while the corrected one fires the subscriber once |
| Scenarios.FindBelowWildcardSlot | src/pingpong.js:133-138 | `find('a.*.b')` on a map holding only the node `a` throws the missing-node error: the `'*'` object is empty, so `b` reads `undefined` |
| Scenarios.RunCallbackTypeCheck | src/pingpong.js:53 | in the 'publish' test, `runCallback` as written makes three silent calls, while the corrected one fires the subscriber once |

## The tests and the code

The scenario lemmas state what the code does for `subscribe`, `unsubscribe` and
`find`. The publish scenarios use the corrected dispatch (see Findings): as written,
every `publish` throws at src/pingpong.js:143, which `Scenarios.SplitTopicTypo`
states. In four places the code differs from what `test/pingpong.test.js` expects:

- **'publish' (lines 78-85)** expects one call.
  - As written, `publish('some.one')` throws before any subscriber runs.
  - Under the corrected dispatch the subscriber fires exactly once, as the test expects.
- **'subscribe with wildcard' (lines 87-97)** expects three calls.
  - `add('some.*')` reaches the `'*'` slot of `some`, which is an empty object.
  - Reading `':callbacks'` from it gives `undefined`, so storing the callback throws.
  - Nothing is ever stored, so no publish fires it, even under the corrected dispatch.
- **'subscribe all messages' (lines 99-108)** expects three calls.
  - `eachDepth` stops at the first missing node before calling back. A topic whose
    first segment has no node therefore never runs the root's `'*'` subscribers.
  - Even under the corrected dispatch, publishing `one`, `two` and `one.two.three`
    after `subscribe('*')` fires nobody.
- **'unsubscribe', line 68** reads the callback directly off the node `one`.
  - The code stores callbacks under the node's `':callbacks'` key instead.
  - The model follows the code.

## Left out

- `Callback.create` and `Callback.guid` (src/pingpong.js:184-198): `Math.random` is
  replaced by a caller-supplied id. Any guid-shaped string (`p` followed by base-32
  digits) may be passed. Two callbacks may get the same id. When they share a topic,
  `SubscribersMap.AddOverwrites` shows the second replaces the first.
- PingPong.RunCallbackAsWritten: the contract does not state that every
  function-valued property fires. The walk never hands `runCallback` one
  (`PingPong.OwnPropertiesAreObjects`), so only the direction that matters for
  the silence result is stated.
- `Callback.run` and the `context` argument (src/pingpong.js:185-193). `run` is
  reached only by `runCallback` as written, on a topic with an inner `':callbacks'`
  segment, which the model excludes (see the `PingPong.Publish` line below).
  `subscribe` never passes a `context` (src/pingpong.js:27).
- The subscriber function: it is an opaque reference (`HandlerRef`). Its arguments
  `(data, topic)` and its side effects are not modelled, so `data` is dropped from
  `publish`.
- Order within one `runCallback` call: `for…in` runs a map's subscribers in insertion
  order. The model records them as a set, so ordering within a batch is not stated.
- `SubscribersMap.map()` (src/pingpong.js:169-171) is a bare accessor. The model's
  root is the map itself.
- The module wrapper and export to `window` (src/pingpong.js:6-15, 203-209) are not
  modelled. Neither is build/build.rb. Of the module's constants (src/pingpong.js:11-13),
  only `SEPERATOR` is unused. `WILDCARD` is the `'*'` key that `publish` reads at
  src/pingpong.js:61, which `Trie.Wildcard` models.
- SubscribersMap.Add requires the topic to be `Supported`, which the source does not
  require. The restriction has two parts:
  - No segment may be an `Object.prototype` property name such as `constructor`
    (`OwnKeys`), because such a segment reads an inherited value.
  - No segment strictly between the first and the last may be `'*'` or `':callbacks'`.
    For such a topic (`a.*.b`), `_structureMap` creates nodes inside the `'*'` object
    or inside a callback map, which the trie datatype does not represent.
- PingPong.Subscribe requires `Supported` topics, for the same reason as `add`.
- SubscribersMap.Find requires only `OwnKeys`, because the lookup creates nothing.
  The fault labels are the model's own, since the source throws one kind of
  TypeError. A topic that goes on below `':callbacks'` onto a stored id
  (`a.:callbacks.<id>`) is labelled a missing node, although the source's walk
  reaches the callback object and throws when it reads that object's callback map.
- SubscribersMap.Remove requires only `OwnKeys`, for the same reason as `find`.
- PingPong.Unsubscribe requires only `OwnKeys`, for the same reason as `find`.
- SubscribersMap.EachDepth requires `Walkable` topics: `OwnKeys`, and no
  `':callbacks'` strictly between the first and the last segment. An inner `'*'` is
  covered. An inner `':callbacks'` lets the walk step into a callback map and visit
  the callback object stored there, which the trie datatype does not hold.
- PingPong.Publish requires `Walkable` topics, for the same reason as `eachDepth`.
  In particular, the model does not cover `publish('a.:callbacks.' + id)` after
  `subscribe('a', f)`. With the `_splitTopic` typo fixed, that call visits the
  callback object as the last depth, and `runCallback` as written then calls its
  `func` and `run`, firing `f` twice.

## Findings

| source | as written | input that shows it | evidently intended | confidence | as-written member | corrected member |
|---|---|---|---|---|---|---|
| src/pingpong.js:143 | `eachDepth` calls `this._splitTopic`, which does not exist (the method is `_splitTopics`), so it throws a TypeError | any `publish`, e.g. `publish('some.one')` after `subscribe('some.one', f)` | split the topic with `_splitTopics` and walk its segments | high, not executed | Scenarios.SplitTopicTypo | SubscribersMap.EachDepth |
| src/pingpong.js:53 | `runCallback` calls only values whose `typeof` is `'function'`. `add` stores callback objects `{id, func, run}`, and the `'*'` values are objects. So on every topic without an inner `':callbacks'` segment nothing is ever called | `subscribe('some.one', f)` then `publish('some.one')`: three `runCallback` calls, none fires `f` | run the callbacks in the node's `':callbacks'` map (at the root, in the `'*'` node's `':callbacks'` map), calling `callbackObj.func(data, topic)` for each | high, not executed | PingPong.RawFireIsSilent | PingPong.Publish |
