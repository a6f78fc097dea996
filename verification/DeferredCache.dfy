/** The cache of decoded deferred bindings. */
module DeferredCache {
  import opened Outcomes

  /** Parameter name, Python type, resource and function. */
  datatype Key = Key(param: string, pytype: string, content: seq<int>, functionName: string)

  /** A use of a deferred binding, with what its decode would do at that moment: give a value, give None or
      raise. */
  datatype Call<V> = Call(key: Key, decoded: Outcome<Option<V>>)

  type Cache<V> = map<Key, Option<V>>

  /** The cache afterwards, the answer, and whether decode was called for it. */
  function Lookup<V>(cache: Cache<V>, call: Call<V>): (Cache<V>, Outcome<Option<V>>, bool) {
    if call.key in cache && cache[call.key].Some? then (cache, Returned(cache[call.key]), false)
    else
      match call.decoded
      case Raised(_) => (cache, call.decoded, true)
      case Returned(v) => (cache[call.key := v], call.decoded, true)
  }

  class DeferredBindingsCache<V> {
    var cache: Cache<V>

    constructor ()
      ensures cache == map[]
    {
      cache := map[];
    }

    method Decode(call: Call<V>) returns (answer: Outcome<Option<V>>, decodeCalled: bool)
      modifies this
      ensures (cache, answer, decodeCalled) == Lookup(old(cache), call)
    {
      if call.key in cache && cache[call.key].Some? {
        return Returned(cache[call.key]), false;
      }
      if call.decoded.Raised? { return call.decoded, true; }
      cache := cache[call.key := call.decoded.value];
      return call.decoded, true;
    }
  }

  function Run<V>(calls: seq<Call<V>>): Cache<V> {
    if calls == [] then map[] else Lookup(Run(calls[..|calls| - 1]), calls[|calls| - 1]).0
  }

  /** Decoding for this call gives its key a value other than None. */
  predicate Gives<V>(call: Call<V>, key: Key) {
    call.key == key && call.decoded.Returned? && call.decoded.value.Some?
  }

  /** The first value other than None that decoding this key gave. */
  function FirstDecoded<V>(calls: seq<Call<V>>, key: Key): Option<V> {
    if calls == [] then None
    else
      var earlier := FirstDecoded(calls[..|calls| - 1], key);
      var last := calls[|calls| - 1];
      if earlier.Some? then earlier else if Gives(last, key) then last.decoded.value else None
  }

  lemma {:induction false} CacheHoldsFirst<V>(calls: seq<Call<V>>, key: Key)
    ensures var cache := Run(calls);
            (if key in cache then cache[key] else None) == FirstDecoded(calls, key)
  {
    if calls != [] {
      CacheHoldsFirst(calls[..|calls| - 1], key);
    }
  }

  /** A key has an entry exactly when decoding it returned once, be it None. */
  lemma {:induction false} CacheKeys<V>(calls: seq<Call<V>>, key: Key)
    ensures key in Run(calls) <==> exists i :: 0 <= i < |calls| && calls[i].key == key && calls[i].decoded.Returned?
  {
    if calls != [] {
      var last := |calls| - 1;
      CacheKeys(calls[..last], key);
      assert forall i :: 0 <= i < last ==> calls[i] == calls[..last][i];
    }
  }

  /** Over any sequence of calls, whatever other keys are used in between: the answer is the first value
      ever decoded for the key, and decode is called, and its outcome passed on, exactly while there is none. */
  lemma {:induction false} AnswerIsFirstDecoded<V>(calls: seq<Call<V>>, call: Call<V>)
    ensures var (_, answer, decodeCalled) := Lookup(Run(calls), call);
            && (decodeCalled <==> FirstDecoded(calls, call.key).None?)
            && answer == (if decodeCalled then call.decoded else Returned(FirstDecoded(calls, call.key)))
            && (answer.Returned? ==> answer.value == FirstDecoded(calls + [call], call.key))
  {
    CacheHoldsFirst(calls, call.key);
    assert (calls + [call])[..|calls|] == calls;
  }

  lemma {:induction false} FirstDecodedMeaning<V>(calls: seq<Call<V>>, key: Key)
    ensures FirstDecoded(calls, key).None? <==> forall i :: 0 <= i < |calls| ==> !Gives(calls[i], key)
    ensures FirstDecoded(calls, key).Some? ==>
              exists i :: 0 <= i < |calls| && calls[i] == Call(key, Returned(FirstDecoded(calls, key)))
                && forall j :: 0 <= j < i ==> !Gives(calls[j], key)
  {
    if calls != [] {
      var last := |calls| - 1;
      FirstDecodedMeaning(calls[..last], key);
      assert forall i :: 0 <= i < last ==> calls[i] == calls[..last][i];
    }
  }

  /** When decoding depends on the key alone, the cache cannot be told from decoding every time. */
  lemma {:induction false} CacheIsTransparent<V>(calls: seq<Call<V>>, call: Call<V>)
    requires forall i :: 0 <= i < |calls| && calls[i].key == call.key ==> calls[i].decoded == call.decoded
    ensures Lookup(Run(calls), call).1 == call.decoded
  {
    AnswerIsFirstDecoded(calls, call);
    FirstDecodedMeaning(calls, call.key);
  }
}
