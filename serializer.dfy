/**
 * The JSON serializer of both revisions, kept abstract: a pair of
 * functions between boxes and strings, plus whether a JSON implementation
 * is present in the page (native, or the fallback script once it has run).
 */
module Serializer {
  import opened Types

  /** `JSON.stringify` and `JSON.parse` on boxes; `parse` yields None where it throws. */
  datatype Codec = Codec(stringify: Box -> string, parse: string -> Option<Box>)

  /** What the box adapter relies on: a box stringifies to an object literal that parses back to it. */
  ghost predicate Lawful(c: Codec)
  {
    forall b: Box :: c.stringify(b) != [] && c.stringify(b)[0] == '{' && c.parse(c.stringify(b)) == Some(b)
  }

  /** `serialize` of the newer revision: throws when no JSON implementation is present. */
  function Serialize(c: Codec, ready: bool, b: Box): Result<string>
  {
    if !ready then Err(SerializationUnavailable) else Ok(c.stringify(b))
  }

  /**
   * `unserialize` of both revisions. Its guard `!(window.JSON || JSON.parse)`
   * never fires by itself: without a JSON global, evaluating `JSON.parse`
   * already throws, so the call fails exactly when JSON is missing.
   */
  function Unserialize(c: Codec, ready: bool, s: string): Result<Box>
  {
    if !ready then Err(SerializationUnavailable)
    else match c.parse(s)
      case None => Err(ParseFailure)
      case Some(b) => Ok(b)
  }

  /** `serialize` of the older revision: returns `false` (None) instead of throwing. */
  function OldSerialize(c: Codec, ready: bool, b: Box): Option<string>
  {
    if !ready then None else Some(c.stringify(b))
  }

  /** With a JSON implementation present, unserializing a serialized box gives the box back. */
  lemma SerializeRoundTrip(c: Codec, b: Box)
    requires Lawful(c)
    ensures Serialize(c, true, b).Ok?
    ensures Unserialize(c, true, Serialize(c, true, b).value) == Ok(b)
    ensures OldSerialize(c, true, b) == Some(Serialize(c, true, b).value)
  {
  }

  /**
   * Without a JSON implementation the newer `serialize` and both
   * `unserialize`s fail and the older `serialize` gives `false`; with one,
   * `unserialize` fails exactly where the parser does.
   */
  lemma SerializeFailure(c: Codec, b: Box, s: string)
    ensures Serialize(c, false, b) == Err(SerializationUnavailable) && OldSerialize(c, false, b) == None
    ensures Unserialize(c, false, s) == Err(SerializationUnavailable)
    ensures Unserialize(c, true, s).Err? <==> c.parse(s).None?
    ensures Unserialize(c, true, s).Ok? ==> Some(Unserialize(c, true, s).value) == c.parse(s)
  {
  }

  /** The page's JSON capability, shared by every candidate (`serializers.json`). */
  class Json {
    const codec: Codec
    /** A JSON global exists. */
    var ready: bool
    /** The fallback script element has been inserted but has not run yet (older revision). */
    var pending: bool

    constructor (codec: Codec, native: bool)
      ensures this.codec == codec && ready == native && !pending
    {
      this.codec := codec;
      ready := native;
      pending := false;
    }

    /**
     * `init` of the newer revision: without JSON, load the fallback script
     * synchronously and evaluate it; `fetched` says whether that defined JSON.
     */
    method Init(fetched: bool)
      modifies this
      ensures ready == (old(ready) || fetched) && pending == old(pending)
    {
      if !ready {
        ready := fetched;
      }
    }

    /** `init` of the older revision: without JSON, insert a script element; it runs later. */
    method InitDeferred()
      modifies this
      ensures ready == old(ready) && pending == (old(pending) || !old(ready))
    {
      if !ready {
        pending := true;
      }
    }

    /** The inserted fallback script has run and defined JSON. */
    method ScriptLoaded()
      requires pending
      modifies this
      ensures ready && !pending
    {
      ready, pending := true, false;
    }
  }
}
