/**
 * The implementation registry of the newer revision (ssw.js): an ordered
 * candidate list that is also indexed by name, auto-detection, forcing a
 * candidate by name, and publishing the public handle.
 */
module Registry {
  import opened Types
  import opened Serializer
  import opened Adapter
  import Helper

  /** The operations `setup` copies from the candidate onto the public handle. */
  const CoreMethods: seq<string> := ["get", "add", "remove", "clear"]

  /**
   * The published `window.ssw`: not yet set, `false` (no candidate), or an
   * object exposing the active candidate and its four bound operations.
   */
  datatype Handle = Unset | Unsupported | Public(implementation: Candidate, methods: seq<string>)

  /** The two ways `get` looks a candidate up: `list[name]` and `list[index]`. */
  datatype Key = ByName(name: string) | ByIndex(index: int)

  /** The priority rule: the position of the first candidate whose probe succeeds, or `|list|`. */
  function FirstAvailable(list: seq<Candidate>): (k: nat)
    ensures k <= |list|
    ensures k < |list| ==> list[k].supported
    ensures forall j :: 0 <= j < k ==> !list[j].supported
  {
    Helper.FirstIndex(list, (c: Candidate) => c.supported)
  }

  class Registry {
    const json: Json
    var list: seq<Candidate>
    /** The name properties of `list`: the last candidate added under each name. */
    var names: map<string, Candidate>
    var handle: Handle
    /** The candidates whose `isAvailable()` was called, in call order. */
    ghost var probes: seq<Candidate>

    ghost predicate Valid()
      reads this
    {
      && (forall c :: c in list ==> c.json == json)
      && (forall n :: n in names ==> names[n] in list && names[n].name == n)
      && (handle.Public? ==> handle.implementation in list)
    }

    constructor (json: Json)
      ensures Valid() && this.json == json
      ensures list == [] && names == map[] && handle == Unset && probes == []
    {
      this.json := json;
      list, names, handle, probes := [], map[], Unset, [];
    }

    /** `add`: push onto the list and index by name. */
    method Add(imp: Candidate)
      requires Valid() && imp.json == json
      modifies this
      ensures Valid()
      ensures list == old(list) + [imp] && names == old(names)[imp.name := imp]
      ensures handle == old(handle) && probes == old(probes)
    {
      list := list + [imp];
      names := names[imp.name := imp];
    }

    /** `get(param)`: `list[name]` or `list[index]`; None is undefined. */
    function Get(key: Key): (r: Option<Candidate>)
      requires Valid()
      reads this
      ensures r.Some? ==> r.value in list
      ensures key.ByName? ==> (r.Some? <==> key.name in names) && (r.Some? ==> r.value.name == key.name)
      ensures key.ByName? && key.name in names ==> r == Some(names[key.name])
      ensures key.ByIndex? ==> (r.Some? <==> 0 <= key.index < |list|) && (r.Some? ==> r.value == list[key.index])
    {
      match key
      case ByName(n) => if n in names then Some(names[n]) else None
      case ByIndex(i) => if 0 <= i < |list| then Some(list[i]) else None
    }

    /**
     * `setup(imp)`: for no candidate the handle becomes `false`; otherwise the
     * candidate is initialized and the handle exposes it and its four operations.
     */
    method Setup(imp: Option<Candidate>, fetched: bool) returns (h: Handle)
      requires Valid() && (imp.Some? ==> imp.value in list)
      modifies this, list, json
      ensures Valid() && list == old(list) && names == old(names) && probes == old(probes)
      ensures h == handle
      ensures handle == if imp.None? then Unsupported else Public(imp.value, CoreMethods)
      ensures imp.Some? ==> json.ready == (old(json.ready) || fetched)
      ensures imp.None? ==> json.ready == old(json.ready)
      ensures json.pending == old(json.pending)
      ensures imp.Some? ==> imp.value.log == old(imp.value.log) + (if imp.value.kind == UserData then [Attach] else [])
      ensures forall c :: c in list && (imp.None? || c != imp.value) ==> c.log == old(c.log)
      ensures forall c :: c in list ==> c.available == old(c.available) && c.box == old(c.box) && c.medium == old(c.medium)
    {
      if imp.None? {
        handle := Unsupported;
        return handle;
      }
      imp.value.Init(fetched);
      handle := Public(imp.value, CoreMethods);
      h := handle;
    }

    /**
     * `detect`: probe every candidate in order, record each result in its
     * `available` flag, and set up the first available one (or `false`).
     */
    method Detect(fetched: bool)
      requires Valid()
      modifies this, list, json
      ensures Valid() && list == old(list) && names == old(names)
      ensures probes == old(probes) + list
      ensures forall c :: c in list ==> c.available == c.supported
      ensures var k := FirstAvailable(list);
              handle == if k < |list| then Public(list[k], CoreMethods) else Unsupported
      ensures var k := FirstAvailable(list);
              json.ready == (old(json.ready) || (k < |list| && fetched)) && json.pending == old(json.pending)
      ensures var k := FirstAvailable(list);
              k < |list| ==> list[k].log == old(list[k].log) + (if list[k].kind == UserData then [Attach] else [])
      ensures var k := FirstAvailable(list);
              forall c :: c in list && (k == |list| || c != list[k]) ==> c.log == old(c.log)
      ensures forall c :: c in list ==> c.box == old(c.box) && c.medium == old(c.medium)
    {
      var chosen: Option<Candidate> := None;
      var i := 0;
      while i < |list|
        invariant 0 <= i <= |list| && Valid()
        invariant list == old(list) && names == old(names) && handle == old(handle)
        invariant probes == old(probes) + list[..i]
        invariant forall j :: 0 <= j < i ==> list[j].available == list[j].supported
        invariant var k := FirstAvailable(list[..i]);
                  chosen == if k < i then Some(list[k]) else None
        invariant forall c :: c in list ==> c.box == old(c.box) && c.medium == old(c.medium) && c.log == old(c.log)
        invariant json.ready == old(json.ready) && json.pending == old(json.pending)
      {
        var c := list[i];
        var ok := c.supported;   // isAvailable()
        probes := probes + [c];
        c.available := ok;
        assert list[..i + 1] == list[..i] + [c];
        FirstAvailablePrefix(list, i);
        if ok && chosen.None? {
          chosen := Some(c);
        }
        i := i + 1;
      }
      assert list[..i] == list;
      var _ := Setup(chosen, fetched);
    }

    /**
     * `force(name)`: set up the named candidate if it was found available by
     * the last `detect`; otherwise the handle becomes `false`.
     */
    method Force(name: string, fetched: bool) returns (h: Handle)
      requires Valid()
      modifies this, list, json
      ensures Valid() && list == old(list) && names == old(names) && probes == old(probes)
      ensures h == handle
      ensures handle == if name in names && old(names[name].available) then Public(names[name], CoreMethods) else Unsupported
      ensures var chosen := name in names && old(names[name].available);
              json.ready == (old(json.ready) || (chosen && fetched)) && json.pending == old(json.pending)
      ensures name in names && old(names[name].available) ==>
                names[name].log == old(names[name].log) + (if names[name].kind == UserData then [Attach] else [])
      ensures forall c :: c in list && !(name in names && old(names[name].available) && c == names[name]) ==> c.log == old(c.log)
      ensures forall c :: c in list ==> c.available == old(c.available) && c.box == old(c.box) && c.medium == old(c.medium)
    {
      var imp := Get(ByName(name));
      if imp.None? || !imp.value.available {
        imp := None;
      }
      h := Setup(imp, fetched);
    }
  }

  /** The first available position of a prefix grows with the prefix only until one is found. */
  lemma FirstAvailablePrefix(list: seq<Candidate>, i: nat)
    requires i < |list|
    ensures var k := FirstAvailable(list[..i]);
            var k' := FirstAvailable(list[..i + 1]);
            (k < i ==> k' == k) && (k == i ==> k' == (if list[i].supported then i else i + 1))
  {
    var k := FirstAvailable(list[..i]);
    var k' := FirstAvailable(list[..i + 1]);
    assert forall j :: 0 <= j < i ==> list[..i + 1][j] == list[..i][j];
    if k < i {
      assert list[..i + 1][k] == list[..i][k];
    }
  }
}
