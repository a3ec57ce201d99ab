/**
 * The "serialized" template of the newer revision (ssw.js): a candidate
 * whose medium stores one string keeps the whole store in an in-memory box,
 * loaded lazily from that string and written back in full after each change.
 *
 * Each operation is specified by a step function on a `State` (box, medium
 * contents, and a log of medium traffic); the `Candidate` class below
 * performs the same operations on its fields and is proved against them.
 */
module Adapter {
  import opened Types
  import opened Serializer
  import Helper
  import Cookie

  /** The four candidates of the newer revision, in registration order. */
  datatype Medium = DomStorage | UserData | CookieJar | WindowName

  /** `storeName` and `cookieName`: the public interface name. */
  const StoreName: string := "ssw"

  /** Traffic on the medium: a raw read, a raw write of a serialized box, the userData element set-up, a teardown hook. */
  datatype Event = Read | Write(text: string) | Attach | Teardown

  /**
   * `box` is None until loaded. `medium` is what the medium holds: the
   * sessionStorage item, the userData attribute, the `document.cookie`
   * string, or `window.name`; None where the medium has nothing.
   */
  datatype State = State(box: Option<Box>, medium: Option<string>, log: seq<Event>)

  /** The medium kind, the serializer, and whether JSON is present. */
  datatype Env = Env(kind: Medium, codec: Codec, ready: bool)

  datatype Step<T> = Step(state: State, result: Result<T>)

  /** The two forms of `add`: `add(key, value)` and `add(mapping)`. */
  datatype Entries = Single(key: string, value: Value) | Bulk(changes: Box)

  /** What `get` returns: the whole box (no key) or the entry at the key (None: undefined). */
  datatype Answer = Whole(box: Box) | Entry(value: Option<Value>)

  /* ---------------- reading and writing the medium ---------------- */

  /** `read` of the sessionStorage candidate: a missing item reads as the empty string. */
  function DomStorageRead(item: Option<string>): (s: string)
    ensures item.None? ==> s == []
    ensures item.Some? ==> s == item.value
  {
    if item.None? then [] else item.value
  }

  /** `read` of each candidate; None stands for `null` or `false`. */
  function ReadRaw(kind: Medium, medium: Option<string>): Option<string>
  {
    match kind
    case DomStorage => Some(DomStorageRead(medium))
    case CookieJar => if medium.None? then None else Cookie.GetCookie(StoreName, medium.value)
    case _ => medium
  }

  /**
   * The loading rule of `readBox`: the string is unserialized only when it
   * is non-empty and starts with `{`; anything else gives an empty box.
   */
  function LoadBox(c: Codec, ready: bool, raw: Option<string>): Result<Box>
  {
    if raw.Some? && raw.value != [] && raw.value[0] == '{' then Unserialize(c, ready, raw.value) else Ok(map[])
  }

  /**
   * `save(text)` of each candidate: what the medium holds afterwards, or None
   * when nothing is written (the cookie candidate skips an empty string), or
   * the error `setCookie` raises.
   */
  function SaveText(kind: Medium, text: string): Result<Option<string>>
  {
    match kind
    case CookieJar =>
      if text == [] then Ok(None)
      else
        var c := Cookie.SetCookie(StoreName, text);
        if c.Err? then Err(c.error) else Ok(Some(c.value))
    case _ => Ok(Some(text))
  }

  /* ---------------- the box operations as steps ---------------- */

  /** `readBox`: nothing once the box is set; otherwise one read of the medium. */
  function ReadBoxStep(env: Env, st: State): Step<Box>
  {
    if st.box.Some? then Step(st, Ok(st.box.value))
    else
      var loaded := LoadBox(env.codec, env.ready, ReadRaw(env.kind, st.medium));
      var read := st.(log := st.log + [Read]);
      if loaded.Ok? then Step(read.(box := Some(loaded.value)), loaded) else Step(read, loaded)
  }

  /** `saveBox`: serialize the whole box and `save` it. */
  function SaveBoxStep(env: Env, st: State): Step<()>
    requires st.box.Some?
  {
    var text := Serialize(env.codec, env.ready, st.box.value);
    if text.Err? then Step(st, Err(text.error))
    else
      var saved := SaveText(env.kind, text.value);
      if saved.Err? then Step(st, Err(saved.error))
      else if saved.value.None? then Step(st, Ok(()))
      else Step(st.(medium := saved.value, log := st.log + [Write(text.value)]), Ok(()))
  }

  /** `get(key)` / `get()`. */
  function GetStep(env: Env, st: State, key: Option<string>): Step<Answer>
  {
    var r := ReadBoxStep(env, st);
    if r.result.Err? then Step(r.state, Err(r.result.error))
    else
      var b := r.result.value;
      Step(r.state, Ok(if key.None? then Whole(b) else Entry(if key.value in b then Some(b[key.value]) else None)))
  }

  /** The change `add` makes to the box. */
  function Apply(e: Entries, b: Box): Box
  {
    match e
    case Single(k, v) => b[k := v]
    case Bulk(m) => Helper.Mixin(m, b)
  }

  /** `add(key, value)` / `add(mapping)`. */
  function AddStep(env: Env, st: State, e: Entries): Step<()>
  {
    var r := ReadBoxStep(env, st);
    if r.result.Err? then Step(r.state, Err(r.result.error))
    else SaveBoxStep(env, r.state.(box := Some(Apply(e, r.result.value))))
  }

  /** `remove(key)`. */
  function RemoveStep(env: Env, st: State, key: string): Step<()>
  {
    var r := ReadBoxStep(env, st);
    if r.result.Err? then Step(r.state, Err(r.result.error))
    else if key !in r.result.value then Step(r.state, Ok(()))
    else SaveBoxStep(env, r.state.(box := Some(r.result.value - {key})))
  }

  /** `specificClear` of each candidate. */
  function ClearHook(kind: Medium, st: State): State
  {
    match kind
    case CookieJar => st.(medium := None, log := st.log + [Teardown])   // deleteCookie
    case UserData => st.(log := st.log + [Teardown])                     // the store expires at once
    case _ => st                                                         // empty, or no hook
  }

  /** `clear()`: an empty box, saved, then the teardown hook. */
  function ClearStep(env: Env, st: State): Step<()>
  {
    var s := SaveBoxStep(env, st.(box := Some(map[])));
    if s.result.Err? then s else Step(ClearHook(env.kind, s.state), Ok(()))
  }

  /* ---------------- properties ---------------- */

  /** Once loaded, the box is never read again: reading is a no-op and `get` leaves the state alone. */
  lemma ReadsOnce(env: Env, st: State, key: Option<string>)
    requires ReadBoxStep(env, st).result.Ok?
    ensures var s := ReadBoxStep(env, st).state;
            s.box.Some? && ReadBoxStep(env, s) == Step(s, Ok(s.box.value)) && GetStep(env, s, key).state == s
    ensures st.box.Some? ==> ReadBoxStep(env, st).state == st
    ensures st.box.None? ==> ReadBoxStep(env, st).state.log == st.log + [Read]
  {
  }

  /** An empty, missing or non-object string loads as the empty box; an object string is unserialized. */
  lemma LoadRule(env: Env, st: State)
    requires st.box.None?
    ensures var raw := ReadRaw(env.kind, st.medium);
            var r := ReadBoxStep(env, st).result;
            (raw.None? || raw.value == [] || raw.value[0] != '{' ==> r == Ok(map[])) &&
            (raw.Some? && raw.value != [] && raw.value[0] == '{' ==> r == Unserialize(env.codec, env.ready, raw.value))
  {
  }

  /** `get()` gives the whole loaded box and `get(k)` its entry at `k`. */
  lemma GetAnswers(env: Env, st: State, k: string)
    requires ReadBoxStep(env, st).result.Ok?
    ensures var b := ReadBoxStep(env, st).result.value;
            GetStep(env, st, None).result == Ok(Whole(b)) &&
            GetStep(env, st, Some(k)).result == Ok(Entry(if k in b then Some(b[k]) else None))
  {
  }

  /** After the box is saved, at most one write of the serialized box happened; nothing else changed. */
  lemma SaveWritesAtMostOnce(env: Env, st: State)
    requires st.box.Some?
    ensures var s := SaveBoxStep(env, st).state;
            s.box == st.box &&
            (s == st || (env.ready && s.log == st.log + [Write(env.codec.stringify(st.box.value))]))
  {
  }

  /** With JSON present and a non-cookie medium, the save writes the serialized box exactly once. */
  lemma SaveWritesOnce(env: Env, st: State)
    requires st.box.Some? && env.ready && env.kind != CookieJar
    ensures var text := env.codec.stringify(st.box.value);
            SaveBoxStep(env, st) == Step(st.(medium := Some(text), log := st.log + [Write(text)]), Ok(()))
  {
  }

  /**
   * `add(k, v)` sets exactly the key `k`; every other key keeps its loaded
   * value; the box is changed even when the save then fails.
   */
  lemma AddSetsKey(env: Env, st: State, k: string, v: Value)
    requires ReadBoxStep(env, st).result.Ok?
    ensures var loaded := ReadBoxStep(env, st).result.value;
            var after := AddStep(env, st, Single(k, v)).state.box;
            after.Some? && k in after.value && after.value[k] == v &&
            (forall j :: j != k ==> (j in after.value <==> j in loaded)) &&
            (forall j :: j != k && j in loaded ==> after.value[j] == loaded[j])
  {
  }

  /** `add(m)` merges every entry of `m`, overwriting clashes; other keys keep their loaded values. */
  lemma AddMerges(env: Env, st: State, m: Box)
    requires ReadBoxStep(env, st).result.Ok?
    ensures var loaded := ReadBoxStep(env, st).result.value;
            var after := AddStep(env, st, Bulk(m)).state.box;
            after.Some? && after.value.Keys == loaded.Keys + m.Keys &&
            (forall j :: j in m ==> after.value[j] == m[j]) &&
            (forall j :: j in loaded && j !in m ==> after.value[j] == loaded[j])
  {
  }

  /** `remove` of an absent key changes nothing beyond loading the box, and writes nothing. */
  lemma RemoveAbsent(env: Env, st: State, key: string)
    requires ReadBoxStep(env, st).result.Ok? && key !in ReadBoxStep(env, st).result.value
    ensures RemoveStep(env, st, key) == Step(ReadBoxStep(env, st).state, Ok(()))
  {
  }

  /** `remove` of a present key deletes exactly that key. */
  lemma RemoveDeletes(env: Env, st: State, key: string)
    requires ReadBoxStep(env, st).result.Ok? && key in ReadBoxStep(env, st).result.value
    ensures RemoveStep(env, st, key).state.box == Some(ReadBoxStep(env, st).result.value - {key})
  {
  }

  /** A second `remove(k)` is a no-op: same state, no read, no write. */
  lemma RemoveTwice(env: Env, st: State, key: string)
    requires RemoveStep(env, st, key).result.Ok?
    ensures var s := RemoveStep(env, st, key).state;
            RemoveStep(env, s, key) == Step(s, Ok(()))
  {
    var r := ReadBoxStep(env, st);
    if key in r.result.value {
      SaveWritesAtMostOnce(env, r.state.(box := Some(r.result.value - {key})));
    }
  }

  /** `clear` never reads the medium; after a successful `clear`, `get()` is empty and `get(k)` is absent. */
  lemma ClearThenGet(env: Env, st: State, k: string)
    ensures Read !in ClearStep(env, st).state.log[|st.log|..]
    ensures ClearStep(env, st).result.Ok? ==>
            var s := ClearStep(env, st).state;
            GetStep(env, s, None) == Step(s, Ok(Whole(map[]))) &&
            GetStep(env, s, Some(k)) == Step(s, Ok(Entry(None)))
  {
    var s := SaveBoxStep(env, st.(box := Some(map[])));
    SaveWritesAtMostOnce(env, st.(box := Some(map[])));
    assert s.state.log[|st.log|..] == [] || s.state.log[|st.log|..] == [Write(env.codec.stringify(map[]))];
    var t := ClearHook(env.kind, s.state);
    assert t.log[|st.log|..] == s.state.log[|st.log|..] || t.log[|st.log|..] == s.state.log[|st.log|..] + [Teardown];
  }

  /**
   * What `saveBox` writes, a later page's `readBox` loads back: a fresh adapter
   * over the medium after a successful save has the same box, on every medium.
   */
  lemma SaveThenLoad(env: Env, st: State)
    requires Lawful(env.codec)
    requires st.box.Some? && SaveBoxStep(env, st).result.Ok?
    ensures var s := SaveBoxStep(env, st).state;
            ReadBoxStep(env, s.(box := None)).result == Ok(st.box.value)
  {
    var b := st.box.value;
    var text := env.codec.stringify(b);
    assert text != [] && text[0] == '{' && env.codec.parse(text) == Some(b);
    if env.kind == CookieJar {
      Cookie.SetThenGet(StoreName, text);
    }
  }

  /** With JSON present and a non-cookie medium, `add` loads the box, changes it, and writes `serialize(box)` exactly once. */
  lemma AddWritesOnce(env: Env, st: State, e: Entries)
    requires env.ready && env.kind != CookieJar && ReadBoxStep(env, st).result.Ok?
    ensures var r := ReadBoxStep(env, st);
            var b := Apply(e, r.result.value);
            var text := env.codec.stringify(b);
            AddStep(env, st, e) == Step(r.state.(box := Some(b), medium := Some(text), log := r.state.log + [Write(text)]), Ok(()))
  {
    var r := ReadBoxStep(env, st);
    SaveWritesOnce(env, r.state.(box := Some(Apply(e, r.result.value))));
  }

  /** Likewise `remove` of a present key writes the box without that key exactly once. */
  lemma RemoveWritesOnce(env: Env, st: State, key: string)
    requires env.ready && env.kind != CookieJar
    requires ReadBoxStep(env, st).result.Ok? && key in ReadBoxStep(env, st).result.value
    ensures var r := ReadBoxStep(env, st);
            var b := r.result.value - {key};
            var text := env.codec.stringify(b);
            RemoveStep(env, st, key) == Step(r.state.(box := Some(b), medium := Some(text), log := r.state.log + [Write(text)]), Ok(()))
  {
    var r := ReadBoxStep(env, st);
    SaveWritesOnce(env, r.state.(box := Some(r.result.value - {key})));
  }

  /** Likewise `clear` writes `serialize({})` exactly once, reads nothing, and then runs the teardown hook. */
  lemma ClearWritesOnce(env: Env, st: State)
    requires env.ready && env.kind != CookieJar
    ensures var text := env.codec.stringify(map[]);
            ClearStep(env, st) == Step(ClearHook(env.kind, st.(box := Some(map[]), medium := Some(text), log := st.log + [Write(text)])), Ok(()))
  {
    SaveWritesOnce(env, st.(box := Some(map[])));
  }

  /**
   * As written, a cookie saved by `saveBox` reads back through the chained
   * decoder: the stored text comes back intact, and loads as the same box,
   * only when it has no `%` immediately followed by `S` or `Q`.
   */
  lemma CookieSaveThenLoadAsWritten(env: Env, st: State)
    requires Lawful(env.codec) && env.kind == CookieJar
    requires st.box.Some? && SaveBoxStep(env, st).result.Ok?
    ensures var text := env.codec.stringify(st.box.value);
            var raw := Cookie.ReadAsWritten(StoreName, SaveBoxStep(env, st).state.medium);
            && raw == Some(Cookie.UnescapeChained(Cookie.Escape(text)))
            && (Cookie.NoMarker(text) ==> LoadBox(env.codec, env.ready, raw) == Ok(st.box.value))
  {
    var text := env.codec.stringify(st.box.value);
    assert text != [] && text[0] == '{' && env.codec.parse(text) == Some(st.box.value);
    Cookie.SetThenGetAsWritten(StoreName, text);
  }

  /* ---------------- the candidate object ---------------- */

  /** One registered candidate: the serialized template mixed with one medium's functions. */
  class Candidate {
    const name: string
    const kind: Medium
    /** What `isAvailable()` reports in this browser. */
    const supported: bool
    const json: Json
    /** Set by `detect`. */
    var available: bool
    var box: Option<Box>
    var medium: Option<string>
    ghost var log: seq<Event>

    ghost function Snapshot(): State
      reads this
    {
      State(box, medium, log)
    }

    function CurrentEnv(): Env
      reads this, json
    {
      Env(kind, json.codec, json.ready)
    }

    constructor (name: string, kind: Medium, supported: bool, json: Json, medium: Option<string>)
      ensures this.name == name && this.kind == kind && this.supported == supported && this.json == json
      ensures !available && Snapshot() == State(None, medium, [])
    {
      this.name, this.kind, this.supported, this.json := name, kind, supported, json;
      available := false;
      box, this.medium, log := None, medium, [];
    }

    /** `init`: initialize the serializer, then `specificInit`; the box is not read. */
    method Init(fetched: bool)
      modifies this`log, json
      ensures json.ready == (old(json.ready) || fetched) && json.pending == old(json.pending)
      ensures box == old(box) && medium == old(medium)
      ensures log == old(log) + (if kind == UserData then [Attach] else [])
    {
      json.Init(fetched);
      if kind == UserData {
        log := log + [Attach];   // create the element and attach the userData behaviour
      }
    }

    method ReadBox() returns (r: Result<Box>)
      modifies this`box, this`log
      ensures var s := ReadBoxStep(CurrentEnv(), old(Snapshot())); Snapshot() == s.state && r == s.result
    {
      if box.Some? {
        return Ok(box.value);
      }
      var raw := ReadRaw(kind, medium);
      log := log + [Read];
      r := LoadBox(json.codec, json.ready, raw);
      if r.Ok? {
        box := Some(r.value);
      }
    }

    /** `save(text)` of this candidate's medium. */
    method Save(text: string) returns (r: Result<()>)
      modifies this`medium, this`log
      ensures var saved := SaveText(kind, text);
              && r == (if saved.Err? then Err(saved.error) else Ok(()))
              && medium == (if saved.Ok? && saved.value.Some? then saved.value else old(medium))
              && log == old(log) + (if saved.Ok? && saved.value.Some? then [Write(text)] else [])
    {
      if kind == CookieJar {
        if text == [] {
          return Ok(());
        }
        var c := Cookie.SetCookie(StoreName, text);
        if c.Err? {
          return Err(c.error);
        }
        medium := Some(c.value);
      } else {
        medium := Some(text);
      }
      log := log + [Write(text)];
      r := Ok(());
    }

    method SaveBox() returns (r: Result<()>)
      requires box.Some?
      modifies this`medium, this`log
      ensures var s := SaveBoxStep(CurrentEnv(), old(Snapshot())); Snapshot() == s.state && r == s.result
    {
      var text := Serialize(json.codec, json.ready, box.value);
      if text.Err? {
        return Err(text.error);
      }
      r := Save(text.value);
    }

    method Get(key: Option<string>) returns (r: Result<Answer>)
      modifies this`box, this`log
      ensures var s := GetStep(CurrentEnv(), old(Snapshot()), key); Snapshot() == s.state && r == s.result
    {
      var loaded := ReadBox();
      if loaded.Err? {
        return Err(loaded.error);
      }
      var b := loaded.value;
      if key.None? {
        r := Ok(Whole(b));
      } else {
        r := Ok(Entry(if key.value in b then Some(b[key.value]) else None));
      }
    }

    method Add(e: Entries) returns (r: Result<()>)
      modifies this`box, this`medium, this`log
      ensures var s := AddStep(CurrentEnv(), old(Snapshot()), e); Snapshot() == s.state && r == s.result
    {
      var loaded := ReadBox();
      if loaded.Err? {
        return Err(loaded.error);
      }
      match e {
        case Single(k, v) =>
          box := Some(box.value[k := v]);
        case Bulk(m) =>
          box := Some(Helper.Mixin(m, box.value));
      }
      r := SaveBox();
    }

    method Remove(key: string) returns (r: Result<()>)
      modifies this`box, this`medium, this`log
      ensures var s := RemoveStep(CurrentEnv(), old(Snapshot()), key); Snapshot() == s.state && r == s.result
    {
      var loaded := ReadBox();
      if loaded.Err? {
        return Err(loaded.error);
      }
      if key in box.value {
        box := Some(box.value - {key});
        r := SaveBox();
      } else {
        r := Ok(());
      }
    }

    method Clear() returns (r: Result<()>)
      modifies this`box, this`medium, this`log
      ensures var s := ClearStep(CurrentEnv(), old(Snapshot())); Snapshot() == s.state && r == s.result
    {
      box := Some(map[]);
      r := SaveBox();
      if r.Err? {
        return;
      }
      SpecificClear();
    }

    /** `specificClear`: delete the cookie, or expire the userData store. */
    method SpecificClear()
      modifies this`medium, this`log
      ensures Snapshot() == ClearHook(kind, old(Snapshot()))
    {
      if kind == CookieJar {
        medium := None;          // deleteCookie
        log := log + [Teardown];
      } else if kind == UserData {
        log := log + [Teardown]; // expire the store
      }
    }
  }
}
