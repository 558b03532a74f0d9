/**
 * ParameterNotFoundException (src/Ignite/Container/Exception/ParameterNotFoundException.php):
 * the missing parameter key, optionally the service or the parameter that
 * refers to it, and a message that names the most specific of these. The
 * message is recomputed whenever a source is set.
 */
module ParameterErrors {
  import opened Wrappers
  import opened Strings

  function Quoted(s: string): string {
    "\"" + s + "\""
  }

  const ServicePrefix := "The service "
  const ParameterPrefix := "The parameter "
  const DependencyText := " has a dependency on a non-existent parameter "
  const RequestedText := "You have requested a non-existent parameter "

  /** updateErrorMessage: the service when there is one, else the referring parameter, else the bare key. */
  function Message(key: string, sourceId: Option<string>, sourceKey: Option<string>): (r: string)
    ensures sourceId.Some? ==> StartsWith(r, ServicePrefix + Quoted(sourceId.value))
    ensures sourceId.None? && sourceKey.Some? ==> StartsWith(r, ParameterPrefix + Quoted(sourceKey.value))
    ensures sourceId.None? && sourceKey.None? ==> StartsWith(r, RequestedText)
  {
    if sourceId.Some? then
      ServicePrefix + Quoted(sourceId.value) + DependencyText + Quoted(key) + "."
    else if sourceKey.Some? then
      ParameterPrefix + Quoted(sourceKey.value) + DependencyText + Quoted(key) + "."
    else
      RequestedText + Quoted(key)
  }

  /** With a service set, the referring parameter does not show in the message. */
  lemma ServiceTakesPrecedence(key: string, sourceId: string, k1: Option<string>, k2: Option<string>)
    ensures Message(key, Some(sourceId), k1) == Message(key, Some(sourceId), k2)
  {
  }

  /** The message ends with the quoted key, followed by a full stop exactly when a source is named. */
  lemma MessageEndsWithKey(key: string, sourceId: Option<string>, sourceKey: Option<string>)
    ensures var m := Message(key, sourceId, sourceKey);
      var tail := if sourceId.Some? || sourceKey.Some? then Quoted(key) + "." else Quoted(key);
      |tail| <= |m| && m[|m| - |tail|..] == tail
  {
    var m := Message(key, sourceId, sourceKey);
    var tail := if sourceId.Some? || sourceKey.Some? then Quoted(key) + "." else Quoted(key);
    var head := if sourceId.Some? then ServicePrefix + Quoted(sourceId.value) + DependencyText
      else if sourceKey.Some? then ParameterPrefix + Quoted(sourceKey.value) + DependencyText
      else RequestedText;
    assert m == head + tail;
  }

  /** Two messages with the same sources are equal only for the same key: the message identifies the key. */
  lemma MessageDeterminesKey(k1: string, k2: string, sourceId: Option<string>, sourceKey: Option<string>)
    requires Message(k1, sourceId, sourceKey) == Message(k2, sourceId, sourceKey)
    ensures k1 == k2
  {
    var head := if sourceId.Some? then ServicePrefix + Quoted(sourceId.value) + DependencyText
      else if sourceKey.Some? then ParameterPrefix + Quoted(sourceKey.value) + DependencyText
      else RequestedText;
    var stop := if sourceId.Some? || sourceKey.Some? then "." else "";
    assert Message(k1, sourceId, sourceKey) == (head + Quoted(k1)) + stop;
    assert Message(k2, sourceId, sourceKey) == (head + Quoted(k2)) + stop;
    QuotedInFrame(head, stop, k1, k2);
  }

  lemma QuotedInFrame(head: string, stop: string, k1: string, k2: string)
    requires (head + Quoted(k1)) + stop == (head + Quoted(k2)) + stop
    ensures k1 == k2
  {
    var m := (head + Quoted(k1)) + stop;
    assert |k1| == |k2|;
    assert m[|head| + 1..|head| + 1 + |k1|] == k1;
    assert ((head + Quoted(k2)) + stop)[|head| + 1..|head| + 1 + |k2|] == k2;
  }

  class ParameterNotFoundException {
    var key: string
    var sourceId: Option<string>
    var sourceKey: Option<string>
    var message: string

    /** The message describes the current key and sources. */
    predicate Valid()
      reads this
    {
      message == Message(key, sourceId, sourceKey)
    }

    constructor(key: string, sourceId: Option<string>, sourceKey: Option<string>)
      ensures this.key == key && this.sourceId == sourceId && this.sourceKey == sourceKey
      ensures Valid()
    {
      this.key := key;
      this.sourceId := sourceId;
      this.sourceKey := sourceKey;
      message := Message(key, sourceId, sourceKey);
    }

    method UpdateErrorMessage()
      modifies this`message
      ensures Valid()
    {
      if sourceId.Some? {
        message := ServicePrefix + Quoted(sourceId.value) + DependencyText + Quoted(key) + ".";
      } else if sourceKey.Some? {
        message := ParameterPrefix + Quoted(sourceKey.value) + DependencyText + Quoted(key) + ".";
      } else {
        message := RequestedText + Quoted(key);
      }
    }

    method GetKey() returns (k: string)
      ensures k == key
    {
      k := key;
    }

    method GetSourceId() returns (id: Option<string>)
      ensures id == sourceId
    {
      id := sourceId;
    }

    method SetSourceId(id: Option<string>)
      modifies this`sourceId, this`message
      ensures sourceId == id && Valid()
    {
      sourceId := id;
      UpdateErrorMessage();
    }

    method GetSourceKey() returns (k: Option<string>)
      ensures k == sourceKey
    {
      k := sourceKey;
    }

    method SetSourceKey(k: Option<string>)
      modifies this`sourceKey, this`message
      ensures sourceKey == k && Valid()
    {
      sourceKey := k;
      UpdateErrorMessage();
    }
  }
}
