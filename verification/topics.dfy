/** Topic strings and their dot-separated segments (`_splitTopics`, src/pingpong.js:105-107).
    No segment grammar is enforced: any string is a topic and any segment may be empty. */
module Topics {

  const Separator: char := '.'

  /** `topic.split('.')`: always at least one segment, none containing the separator,
      and joining them back gives the topic. */
  function Split(topic: string): (segments: seq<string>)
    ensures |segments| >= 1
    ensures forall i :: 0 <= i < |segments| ==> Separator !in segments[i]
    ensures Join(segments) == topic
    decreases |topic|
  {
    if topic == [] then [""]
    else if topic[0] == Separator then
      var rest := Split(topic[1..]);
      assert ([""] + rest)[1..] == rest;
      [""] + rest
    else
      var rest := Split(topic[1..]);
      var first := [topic[0]] + rest[0];
      assert ([first] + rest[1..])[1..] == rest[1..];
      assert topic == [topic[0]] + topic[1..];
      [first] + rest[1..]
  }

  /** `segments.join('.')`. */
  function Join(segments: seq<string>): string
    requires |segments| >= 1
    decreases |segments|
  {
    if |segments| == 1 then segments[0]
    else segments[0] + [Separator] + Join(segments[1..])
  }

  /** Splitting a word that holds no separator, followed by anything, glues the word
      onto the first segment of the rest. */
  lemma {:induction false} SplitAfterWord(word: string, tail: string)
    requires Separator !in word
    ensures Split(word + tail) == [word + Split(tail)[0]] + Split(tail)[1..]
    decreases |word|
  {
    var rest := Split(tail);
    if word == [] {
      assert word + tail == tail;
      assert word + rest[0] == rest[0];
      assert rest == [rest[0]] + rest[1..];
    } else {
      SplitAfterWord(word[1..], tail);
      var inner := Split(word[1..] + tail);
      assert word + tail == [word[0]] + (word[1..] + tail);
      SplitAfterChar(word[0], word[1..] + tail);
      assert inner[0] == word[1..] + rest[0];
      assert [word[0]] + (word[1..] + rest[0]) == word + rest[0];
    }
  }

  /** One step of splitting: a leading character other than the separator joins the
      first segment. */
  lemma SplitAfterChar(c: char, tail: string)
    requires c != Separator
    ensures Split([c] + tail) == [[c] + Split(tail)[0]] + Split(tail)[1..]
  {
    assert ([c] + tail)[1..] == tail;
  }

  /** Splitting is the inverse of joining for separator-free segments, so a topic's
      segments are exactly recovered from the topic and vice versa. */
  lemma {:induction false} SplitJoin(segments: seq<string>)
    requires |segments| >= 1
    requires forall i :: 0 <= i < |segments| ==> Separator !in segments[i]
    ensures Split(Join(segments)) == segments
    decreases |segments|
  {
    if |segments| == 1 {
      SplitAfterWord(segments[0], "");
      assert segments[0] + "" == segments[0];
    } else {
      var rest := segments[1..];
      SplitJoin(rest);
      var tail := [Separator] + Join(rest);
      assert tail[0] == Separator && tail[1..] == Join(rest);
      assert Split(tail) == [""] + rest;
      SplitAfterWord(segments[0], tail);
      assert segments[0] + [Separator] + Join(rest) == segments[0] + tail;
      assert segments[0] + "" == segments[0];
      assert segments == [segments[0]] + rest;
    }
  }

  /** Two topics with the same segments are the same topic. */
  lemma SplitInjective(a: string, b: string)
    requires Split(a) == Split(b)
    ensures a == b
  {
  }
}
