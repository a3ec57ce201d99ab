/**
 * The implementation registry of the older revision (ssw-old.js): lookup by
 * name or index, a detection that stops at the first available candidate,
 * forcing without an availability check, and a `setup` that installs the
 * four forwarding methods on the `storage` namespace before calling `init`.
 */
module OldRegistry {
  import opened Types
  import opened Serializer
  import opened OldAdapter
  import Helper

  /** The argument of `get`, by its `typeof`. */
  datatype Param = Str(s: string) | Num(n: int) | OtherType

  /** What `get` returns: a candidate, or one of the falsy values null, undefined, false. */
  datatype Found = Imp(imp: OldCandidate) | NullValue | UndefinedValue | FalseValue

  /**
   * The four `storage.get/add/remove/clear` wrappers: not installed yet, or
   * installed and forwarding to what `setup` was given (a falsy target makes
   * every call throw).
   */
  datatype Binding = NotInstalled | Wrappers(target: Found, methods: seq<string>)

  /** The methods `setup` installs on the namespace. */
  const CoreMethods: seq<string> := ["get", "add", "remove", "clear"]

  /** The `forEach` callback of `get(name)`. */
  function NameMatch(name: string): OldCandidate -> Option<OldCandidate>
  {
    (c: OldCandidate) => if c.name == name then Some(c) else None
  }

  /** `get(param)`. */
  function Lookup(list: seq<OldCandidate>, p: Param): (r: Found)
    ensures p.Str? ==> (r.NullValue? <==> forall i :: 0 <= i < |list| ==> list[i].name != p.s)
    ensures p.Str? && (exists i :: 0 <= i < |list| && list[i].name == p.s) ==> r.Imp?
    ensures p.Str? && r.Imp? ==> exists i :: 0 <= i < |list| && list[i] == r.imp && r.imp.name == p.s &&
                                             forall j :: 0 <= j < i ==> list[j].name != p.s
    ensures p.Num? ==> r == if 0 <= p.n < |list| then Imp(list[p.n]) else UndefinedValue
    ensures p.OtherType? ==> r == FalseValue
  {
    match p
    case Str(s) =>
      var found := Helper.FirstResult(list, NameMatch(s));
      assert forall i :: 0 <= i < |list| ==> (NameMatch(s)(list[i]).None? <==> list[i].name != s);
      if found.None? then NullValue else Imp(found.value)
    case Num(n) => if 0 <= n < |list| then Imp(list[n]) else UndefinedValue
    case OtherType => FalseValue
  }

  /** The position of the first candidate whose probe succeeds, or `|list|`. */
  function FirstAvailable(list: seq<OldCandidate>): (k: nat)
    ensures k <= |list|
    ensures k < |list| ==> list[k].supported
    ensures forall j :: 0 <= j < k ==> !list[j].supported
  {
    Helper.FirstIndex(list, (c: OldCandidate) => c.supported)
  }

  /** The candidates `detect` probes: those up to and including the first available one. */
  function Probed(list: seq<OldCandidate>): (s: seq<OldCandidate>)
    ensures |s| <= |list| && s == list[..|s|]
    ensures forall i :: 0 <= i < |s| - 1 ==> !s[i].supported
    ensures FirstAvailable(list) < |list| ==> s != [] && s[|s| - 1] == list[FirstAvailable(list)]
    ensures FirstAvailable(list) == |list| ==> s == list
  {
    var k := FirstAvailable(list);
    if k < |list| then list[..k + 1] else list
  }

  class OldRegistry {
    const json: Json
    var list: seq<OldCandidate>
    /** The name properties that `add` sets on the list (never read by `get`). */
    var names: map<string, OldCandidate>
    /** `storage.implementation.active`. */
    var active: Option<OldCandidate>
    var bound: Binding
    ghost var probes: seq<OldCandidate>

    ghost predicate Valid()
      reads this
    {
      && (forall c :: c in list ==> c.json == json)
      && (forall n :: n in names ==> names[n] in list && names[n].name == n)
      && (active.Some? ==> active.value in list)
      && (bound.Wrappers? && bound.target.Imp? ==> bound.target.imp in list)
    }

    constructor (json: Json)
      ensures Valid() && this.json == json
      ensures list == [] && names == map[] && active == None && bound == NotInstalled && probes == []
    {
      this.json := json;
      list, names, active, bound, probes := [], map[], None, NotInstalled, [];
    }

    /** `add`: push onto the list and set the name property. */
    method Add(imp: OldCandidate)
      requires Valid() && imp.json == json
      modifies this
      ensures Valid()
      ensures list == old(list) + [imp] && names == old(names)[imp.name := imp]
      ensures active == old(active) && bound == old(bound) && probes == old(probes)
    {
      list := list + [imp];
      names := names[imp.name := imp];
    }

    /** `get(param)`: by name, the first candidate in list order with that name. */
    method Get(p: Param) returns (r: Found)
      ensures r == Lookup(list, p)
    {
      match p
      case Str(s) =>
        var found := Helper.ForEach(list, NameMatch(s));
        r := if found.None? then NullValue else Imp(found.value);
      case Num(n) =>
        r := if 0 <= n < |list| then Imp(list[n]) else UndefinedValue;
      case OtherType =>
        r := FalseValue;
    }

    /**
     * `setup(imp)`: install the four wrappers, then call `imp.init()` and
     * record the active candidate; `init` on a falsy value throws TypeError
     * and leaves the active candidate as it was.
     */
    method Setup(imp: Found) returns (r: Result<()>)
      requires Valid() && (imp.Imp? ==> imp.imp in list)
      modifies this, list, json
      ensures Valid() && list == old(list) && names == old(names) && probes == old(probes)
      ensures bound == Wrappers(imp, CoreMethods)
      ensures imp.Imp? ==> r == Ok(()) && active == Some(imp.imp)
      ensures !imp.Imp? ==> r == Err(TypeError) && active == old(active)
      ensures json.ready == old(json.ready)
      ensures imp.Imp? ==> json.pending == (old(json.pending) || (imp.imp.kind != SessionStorage && !old(json.ready)))
      ensures !imp.Imp? ==> json.pending == old(json.pending)
      ensures imp.Imp? ==> imp.imp.log == old(imp.imp.log) + (if imp.imp.kind == UserData then [Attach] else [])
      ensures forall c :: c in list && (!imp.Imp? || c != imp.imp) ==> c.log == old(c.log)
      ensures forall c :: c in list ==> c.box == old(c.box) && c.medium == old(c.medium) && c.store == old(c.store)
    {
      bound := Wrappers(imp, CoreMethods);
      if !imp.Imp? {
        return Err(TypeError);
      }
      imp.imp.Init();
      active := Some(imp.imp);
      r := Ok(());
    }

    /**
     * `detect`: probe candidates in order until one is available and set it
     * up; later candidates are never probed; with none, nothing is set up.
     */
    method Detect()
      requires Valid()
      modifies this, list, json
      ensures Valid() && list == old(list) && names == old(names)
      ensures probes == old(probes) + Probed(list)
      ensures var k := FirstAvailable(list);
              if k < |list| then active == Some(list[k]) && bound == Wrappers(Imp(list[k]), CoreMethods)
              else active == old(active) && bound == old(bound)
      ensures var k := FirstAvailable(list);
              json.ready == old(json.ready) &&
              json.pending == (old(json.pending) || (k < |list| && list[k].kind != SessionStorage && !old(json.ready)))
      ensures var k := FirstAvailable(list);
              k < |list| ==> list[k].log == old(list[k].log) + (if list[k].kind == UserData then [Attach] else [])
      ensures var k := FirstAvailable(list);
              forall c :: c in list && (k == |list| || c != list[k]) ==> c.log == old(c.log)
      ensures forall c :: c in list ==> c.box == old(c.box) && c.medium == old(c.medium) && c.store == old(c.store)
    {
      var i := 0;
      while i < |list|
        invariant 0 <= i <= |list|
        invariant forall j :: 0 <= j < i ==> !list[j].supported
        invariant probes == old(probes) + list[..i]
        invariant unchanged(this`list, this`names, this`active, this`bound)
        invariant forall c :: c in list ==> c.box == old(c.box) && c.medium == old(c.medium) && c.store == old(c.store) && c.log == old(c.log)
        invariant json.ready == old(json.ready) && json.pending == old(json.pending)
      {
        var c := list[i];
        probes := probes + [c];
        if c.supported {   // isAvailable()
          assert FirstAvailable(list) == i by { FirstAvailableIs(list, i); }
          assert list[..i] + [c] == list[..i + 1];
          var _ := Setup(Imp(c));
          return;
        }
        i := i + 1;
      }
      assert list[..i] == list;
      FirstAvailableNone(list);
    }

    /** `force(name)`: set up whatever `get` returns, with no availability check. */
    method Force(p: Param) returns (r: Result<()>)
      requires Valid()
      modifies this, list, json
      ensures Valid() && list == old(list) && names == old(names) && probes == old(probes)
      ensures var f := Lookup(list, p);
              bound == Wrappers(f, CoreMethods) &&
              (f.Imp? ==> r == Ok(()) && active == Some(f.imp)) &&
              (!f.Imp? ==> r == Err(TypeError) && active == old(active))
      ensures json.ready == old(json.ready)
      ensures var f := Lookup(list, p);
              json.pending == (old(json.pending) || (f.Imp? && f.imp.kind != SessionStorage && !old(json.ready)))
      ensures var f := Lookup(list, p);
              f.Imp? ==> f.imp.log == old(f.imp.log) + (if f.imp.kind == UserData then [Attach] else [])
      ensures var f := Lookup(list, p);
              forall c :: c in list && (!f.Imp? || c != f.imp) ==> c.log == old(c.log)
    {
      var f := Get(p);
      if f.Imp? {
        LookupInList(list, p);
      }
      r := Setup(f);
    }
  }

  lemma LookupInList(list: seq<OldCandidate>, p: Param)
    requires Lookup(list, p).Imp?
    ensures Lookup(list, p).imp in list
  {
  }

  lemma FirstAvailableIs(list: seq<OldCandidate>, i: nat)
    requires i < |list| && list[i].supported
    requires forall j :: 0 <= j < i ==> !list[j].supported
    ensures FirstAvailable(list) == i
  {
  }

  lemma FirstAvailableNone(list: seq<OldCandidate>)
    requires forall j :: 0 <= j < |list| ==> !list[j].supported
    ensures FirstAvailable(list) == |list|
  {
  }
}
