/**
  Restricting a client configuration document to its top-level keys
  `type`, `config` and `prefix`.  The YAML text on either side is not
  modelled: the input is the result of unmarshalling the document into a
  map (or the unmarshalling error) and the output is the filtered map
  that would be marshalled back.
 */
module TrimConfig {
  import opened Wrappers

  /** The top-level keys that survive filtering. */
  const Allowed: set<string> := {"type", "config", "prefix"}

  datatype TrimError = UnmarshalFailed(cause: string)

  /** The filtered document: the input restricted to the allowed keys. */
  function Trimmed<V>(raw: map<string, V>): map<string, V>
  {
    map k | k in raw && k in Allowed :: raw[k]
  }

  /**
    Copies every allowed key of the unmarshalled document into a fresh
    map, visiting the keys in an unspecified order as Go's map iteration
    does.  An unmarshalling failure is returned as an error.
   */
  method TrimExtraFields<V>(parsed: Result<map<string, V>, string>) returns (r: Result<map<string, V>, TrimError>)
    ensures parsed.Err? ==> r == Err(UnmarshalFailed(parsed.error))
    ensures parsed.Ok? ==> r.Ok? && r.value.Keys == parsed.value.Keys * Allowed
    ensures parsed.Ok? ==> forall k :: k in r.value ==> r.value[k] == parsed.value[k]
    ensures parsed.Ok? ==> r == Ok(Trimmed(parsed.value))
  {
    if parsed.Err? {
      return Err(UnmarshalFailed(parsed.error));
    }
    var raw := parsed.value;
    var filtered: map<string, V> := map[];
    var unvisited := raw.Keys;
    while unvisited != {}
      invariant unvisited <= raw.Keys
      invariant filtered.Keys == (raw.Keys - unvisited) * Allowed
      invariant forall k :: k in filtered ==> filtered[k] == raw[k]
      decreases unvisited
    {
      var key :| key in unvisited;
      if key in Allowed {
        filtered := filtered[key := raw[key]];
      }
      unvisited := unvisited - {key};
    }
    assert filtered == Trimmed(raw) by {
      assert filtered.Keys == Trimmed(raw).Keys;
    }
    return Ok(filtered);
  }

  /** The filtered key set is the input's keys intersected with the allowed keys, values unchanged. */
  lemma TrimmedKeepsAllowed<V>(raw: map<string, V>)
    ensures Trimmed(raw).Keys == raw.Keys * Allowed
    ensures forall k :: k in Trimmed(raw) ==> Trimmed(raw)[k] == raw[k]
  {
  }

  /** Filtering twice is filtering once. */
  lemma TrimmedIdempotent<V>(raw: map<string, V>)
    ensures Trimmed(Trimmed(raw)) == Trimmed(raw)
  {
  }

  /** A document without extra keys is left unchanged. */
  lemma TrimmedWithoutExtraKeys<V>(raw: map<string, V>)
    requires raw.Keys <= Allowed
    ensures Trimmed(raw) == raw
  {
  }
}
