/** The QUnit cases of test/pingpong.test.js replayed on the model, each starting
    from `reset` as the test setup does (test/pingpong.test.js:2-4). Topics are
    given by their segments; `SplitExamples` shows the test's topic strings have
    them. For `subscribe`, `unsubscribe` and `find` the lemmas state what the code
    does, also where a test expects otherwise. As written, every `publish` throws
    (`SplitTopicTypo`), so the publish scenarios state what the corrected dispatch
    `PingPong.Publish` does. */
module Scenarios {
  import opened Outcomes
  import opened Topics
  import opened Trie
  import opened SubscribersMap
  import opened PingPong

  lemma {:induction false} SplitExamples()
    ensures Split("some.one") == ["some", "one"]
    ensures Split("some.two") == ["some", "two"]
    ensures Split("some.*") == ["some", "*"]
    ensures Split("*") == ["*"]
    ensures Split("one") == ["one"]
  {
    assert Join(["some", "one"]) == "some.one";
    SplitJoin(["some", "one"]);
    assert Join(["some", "two"]) == "some.two";
    SplitJoin(["some", "two"]);
    assert Join(["some", "*"]) == "some.*";
    SplitJoin(["some", "*"]);
    SplitJoin(["*"]);
    SplitJoin(["one"]);
  }

  /** After subscribing only `some.one` from an empty map, the root has no `'*'` node. */
  lemma {:induction false} NoRootWildcard(f: HandlerRef, id: CallbackId, someOne: string, star: string)
    requires Split(someOne) == ["some", "one"] && Split(star) == ["*"]
    ensures Subscribe(Reset(), someOne, f, id).result == Ok(id)
    ensures RootWildcardIds(Subscribe(Reset(), someOne, f, id).root) == {}
  {
    assert Supported(Split(someOne)) && !EndsInSlot(true, Split(someOne));
    assert Supported(Split(star));
    var root := Subscribe(Reset(), someOne, f, id).root;
    AddOnlyAlong(Reset(), someOne, id, Callback(id, f), star, id);
    assert !(["*"] <= ["some", "one"]);
    assert Resolve(root, true, ["*"]) == None;
  }

  /** 'subscribe multiple messages' (test/pingpong.test.js:50-61): both callbacks
      stay findable. */
  lemma {:induction false} SubscribeTwoTopics(f: HandlerRef, g: HandlerRef, id: CallbackId, other: CallbackId, someOne: string, someTwo: string)
    requires Split(someOne) == ["some", "one"] && Split(someTwo) == ["some", "two"]
    ensures var one := Subscribe(Reset(), someOne, f, id);
            var two := Subscribe(one.root, someTwo, g, other);
            && one.result == Ok(id) && two.result == Ok(other)
            && Find(two.root, someOne, id) == Ok(Some(Callback(id, f)))
            && Find(two.root, someTwo, other) == Ok(Some(Callback(other, g)))
  {
    assert Supported(Split(someOne)) && !EndsInSlot(true, Split(someOne));
    assert Supported(Split(someTwo)) && !EndsInSlot(true, Split(someTwo));
    var one := Subscribe(Reset(), someOne, f, id);
    AddKeeps(one.root, someTwo, other, Callback(other, g), someOne, id);
  }

  /** 'unsubscribe' (test/pingpong.test.js:64-75): afterwards `find` returns
      `undefined`. Line 68 of that test reads the callback directly off the node
      `one`, an older layout; the code stores it under the node's `':callbacks'`
      key, and the model follows the code. */
  lemma {:induction false} UnsubscribeForgets(f: HandlerRef, id: CallbackId, someOne: string)
    requires Split(someOne) == ["some", "one"]
    ensures var one := Subscribe(Reset(), someOne, f, id);
            && Unsubscribe(one.root, someOne, id).Ok?
            && Find(Unsubscribe(one.root, someOne, id).value, someOne, id) == Ok(None)
  {
    assert Supported(Split(someOne)) && !EndsInSlot(true, Split(someOne));
  }

  /** 'publish' (test/pingpong.test.js:78-85): under the corrected dispatch the
      subscriber of `some.one` fires once. */
  lemma {:induction false} PublishOnce(f: HandlerRef, id: CallbackId, someOne: string, star: string)
    requires Split(someOne) == ["some", "one"] && Split(star) == ["*"]
    ensures Count(Publish(Subscribe(Reset(), someOne, f, id).root, someOne), id) == 1
  {
    assert Supported(Split(someOne)) && !EndsInSlot(true, Split(someOne));
    assert Supported(Split(star));
    var root := Subscribe(Reset(), someOne, f, id).root;
    NoRootWildcard(f, id, someOne, star);
    PublishFires(root, someOne, id);
  }

  /** 'subscribe with wildcard' (test/pingpong.test.js:87-97): `add('some.*')` stores
      into the `'*'` slot, which has no callback map, so `subscribe` throws after
      creating the node `some`, and no publish of any topic fires the callback, even
      under the corrected dispatch (the test expects 3 calls). */
  lemma {:induction false} SubscribeChildWildcard(f: HandlerRef, id: CallbackId, someStar: string, topic: string)
    requires Split(someStar) == ["some", "*"]
    requires Walkable(Split(topic))
    ensures Subscribe(Reset(), someStar, f, id).result == Err(NoCallbackMap)
    ensures Count(Publish(Subscribe(Reset(), someStar, f, id).root, topic), id) == 0
  {
    ChildWildcardLeavesNode(f, id, someStar);
    NothingFiresBelowBareNode(Subscribe(Reset(), someStar, f, id).root, topic, id);
  }

  /** `add('some.*')` on an empty map leaves exactly the fresh node `some` behind. */
  lemma {:induction false} ChildWildcardLeavesNode(f: HandlerRef, id: CallbackId, someStar: string)
    requires Split(someStar) == ["some", "*"]
    ensures Subscribe(Reset(), someStar, f, id).result == Err(NoCallbackMap)
    ensures Subscribe(Reset(), someStar, f, id).root == Node(map[], map["some" := Empty])
  {
    assert Supported(Split(someStar)) && EndsInSlot(true, Split(someStar));
    var segments := Split(someStar);
    assert segments[1..] == ["*"];
    assert Structure(Empty, false, ["*"]) == Empty;
    var built := Structure(Reset(), true, segments);
    assert built == Node(map[], map["some" := Empty]);
    StructureBuilds(Reset(), true, segments);
    assert Add(Reset(), someStar, id, Callback(id, f)).root == built;
  }

  /** Under the corrected dispatch, a map holding only an empty node `some` fires
      nobody, whatever the topic. */
  lemma {:induction false} NothingFiresBelowBareNode(root: Node, topic: string, id: CallbackId)
    requires root == Node(map[], map["some" := Empty])
    requires Walkable(Split(topic))
    ensures Count(Publish(root, topic), id) == 0
  {
    var path := Split(topic);
    assert RootWildcardIds(root) == {};
    assert CallbacksAt(root, true, path).Ok? ==> CallbacksAt(root, true, path).value == map[] by {
      if path[0] != "some" {
        assert Resolve(root, true, path) == None;
      } else if |path| == 1 {
        assert Resolve(root, true, path) == Some(At(Empty));
      } else {
        assert Resolve(root, true, path) == Resolve(Empty, false, path[1..]);
      }
    }
    assert !(Find(root, topic, id).Ok? && Find(root, topic, id).value.Some?);
    PublishFires(root, topic, id);
  }

  /** 'subscribe all messages' (test/pingpong.test.js:99-108): `subscribe('*')`
      succeeds at the root. Under the corrected dispatch, publishing `one` stops at
      the missing node `one` before the root's `'*'` runs, so the callback does not
      fire (the test expects it to). Publishing `*` itself fires it twice: once as
      the root's `'*'` subscriber and once as the node's own. */
  lemma {:induction false} SubscribeAll(f: HandlerRef, id: CallbackId, star: string, one: string)
    requires Split(star) == ["*"] && Split(one) == ["one"]
    ensures Subscribe(Reset(), star, f, id).result == Ok(id)
    ensures Count(Publish(Subscribe(Reset(), star, f, id).root, one), id) == 0
    ensures Count(Publish(Subscribe(Reset(), star, f, id).root, star), id) == 2
  {
    assert Supported(Split(star)) && !EndsInSlot(true, Split(star));
    assert Supported(Split(one));
    var root := Subscribe(Reset(), star, f, id).root;
    assert root.children.Keys == {"*"};
    PublishFires(root, one, id);
    var segments := Split(star);
    assert segments[1..] == [];
    assert Child(root, true, "*") == Some(At(root.children["*"]));
    assert Resolve(root, true, segments) == Some(At(root.children["*"]));
    assert Find(root, star, id) == Ok(Some(Callback(id, f)));
    assert id in RootWildcardIds(root);
    PublishFires(root, star, id);
  }

  /** `publish` as written throws in the 'publish' test, where the corrected model
      fires the subscriber once. */
  lemma {:induction false} SplitTopicTypo(f: HandlerRef, id: CallbackId, someOne: string, star: string)
    requires Split(someOne) == ["some", "one"] && Split(star) == ["*"]
    ensures PublishAsWritten(Subscribe(Reset(), someOne, f, id).root, someOne) == Err(NotAFunction)
    ensures Count(Publish(Subscribe(Reset(), someOne, f, id).root, someOne), id) == 1
  {
    assert Supported(Split(someOne)) && !EndsInSlot(true, Split(someOne));
    PublishOnce(f, id, someOne, star);
  }

  /** With `_splitTopics` called, `runCallback` as written still fires nobody in the
      'publish' test: three calls, all silent, where the corrected model fires the
      subscriber once. */
  lemma {:induction false} RunCallbackTypeCheck(f: HandlerRef, id: CallbackId, someOne: string, star: string)
    requires Split(someOne) == ["some", "one"] && Split(star) == ["*"]
    ensures var root := Subscribe(Reset(), someOne, f, id).root;
            var raw := RawFire(EachDepth(root, someOne), 0);
            && |raw| == 3
            && (forall j :: 0 <= j < |raw| ==> raw[j] == {})
            && Count(Publish(root, someOne), id) == 1
  {
    assert Supported(Split(someOne)) && !EndsInSlot(true, Split(someOne));
    PublishOnce(f, id, someOne, star);
    var root := Subscribe(Reset(), someOne, f, id).root;
    assert Find(root, someOne, id).Ok?;
    assert |Publish(root, someOne)| == 3;
    PublishAsWrittenIsSilent(root, someOne);
  }

  /** A lookup may pass a `'*'` slot in the middle of its topic: the object there is
      empty, so the next segment reads `undefined` and `find` throws. */
  lemma {:induction false} FindBelowWildcardSlot(id: CallbackId, aStarB: string)
    requires Split(aStarB) == ["a", "*", "b"]
    ensures !Supported(Split(aStarB)) && Walkable(Split(aStarB))
    ensures Find(Node(map[], map["a" := Empty]), aStarB, id) == Err(MissingNode)
  {
    var segments := Split(aStarB);
    assert IsSlot(1 == 0, segments[1]);
    assert OwnKeys(segments);
    assert segments[1..] == ["*", "b"];
    assert Resolve(Empty, false, ["*", "b"]) == None;
  }
}
