/**
 * The candidates of the older revision (ssw-old.js): the native
 * sessionStorage candidate, and the "serialized" template used by the
 * userData, cookie and window.name candidates. In this revision `get` is
 * the loader, `add` does not load, `remove` acts only on a loaded box, and
 * `clear` calls `save()` without an argument.
 */
module OldAdapter {
  import opened Types
  import opened Serializer
  import Helper
  import Cookie

  /** The four candidates of the older revision, in registration order. */
  datatype Medium = SessionStorage | UserData | CookieJar | WindowName

  /** `storeName` and `cookieName` of the older revision. */
  const StoreName: string := "storage"

  /** What reaches `save`: nothing (`save()`), `false` (failed serialization), or a string. */
  datatype SaveArg = Undefined | False | Str(text: string)

  /** The string a medium keeps for a non-string argument: `String(undefined)`, `String(false)`. */
  function JsString(a: SaveArg): string
  {
    match a
    case Undefined => "undefined"
    case False => "false"
    case Str(s) => s
  }

  datatype Event = Read | Write(text: string) | Attach | Teardown

  /**
   * `box` is None until loaded; `medium` is the userData attribute, the
   * `document.cookie` string or `window.name`; `store` is sessionStorage,
   * which only the native candidate uses.
   */
  datatype State = State(box: Option<Box>, medium: Option<string>, store: Box, log: seq<Event>)

  datatype Env = Env(kind: Medium, codec: Codec, ready: bool)

  datatype Step<T> = Step(state: State, result: Result<T>)

  /** `read` of each serialized candidate; None is `null`/`false`. */
  function ReadRaw(kind: Medium, medium: Option<string>): Option<string>
  {
    if kind == CookieJar then (if medium.None? then None else Cookie.GetCookie(StoreName, medium.value))
    else medium
  }

  /**
   * `save(arg)` of each serialized candidate: the medium's new contents or
   * the error. The cookie candidate calls `toString()` on the argument,
   * which throws on undefined; the others keep the argument's string form.
   */
  function SaveArgText(kind: Medium, arg: SaveArg): Result<string>
  {
    if kind == CookieJar then
      if arg.Undefined? then Err(TypeError)
      else
        var c := Cookie.SetCookie(StoreName, JsString(arg));
        if c.Err? then Err(c.error) else Ok(c.value)
    else Ok(JsString(arg))
  }

  function SaveStep(env: Env, st: State, arg: SaveArg): Step<()>
  {
    var saved := SaveArgText(env.kind, arg);
    if saved.Err? then Step(st, Err(saved.error))
    else Step(st.(medium := Some(saved.value), log := st.log + [Write(JsString(arg))]), Ok(()))
  }

  /** `this.save(this.serialize(this.box))`. */
  function SaveBoxStep(env: Env, st: State, b: Box): Step<()>
  {
    var text := OldSerialize(env.codec, env.ready, b);
    SaveStep(env, st, if text.None? then False else Str(text.value))
  }

  /** `get()`: the cached box, or one read of the medium, unserialized only if it starts with `{`. */
  function GetStep(env: Env, st: State): Step<Box>
  {
    if env.kind == SessionStorage then Step(st, Ok(st.store))
    else if st.box.Some? then Step(st, Ok(st.box.value))
    else
      var raw := ReadRaw(env.kind, st.medium);
      var read := st.(log := st.log + [Read]);
      if raw.Some? && raw.value != [] && raw.value[0] == '{' then
        var u := Unserialize(env.codec, env.ready, raw.value);
        if u.Err? then Step(read, u) else Step(read.(box := Some(u.value)), u)
      else Step(read.(box := Some(map[])), Ok(map[]))
  }

  /** `add(mapping)`: merge into the box (starting from an empty box when none is loaded) and save. */
  function AddStep(env: Env, st: State, m: Box): Step<()>
  {
    if env.kind == SessionStorage then Step(st.(store := Helper.Mixin(m, st.store)), Ok(()))
    else
      var b := Helper.Mixin(m, if st.box.Some? then st.box.value else map[]);
      SaveBoxStep(env, st.(box := Some(b)), b)
  }

  /** `remove(name)`: only on a loaded box that holds the key; otherwise nothing at all. */
  function RemoveStep(env: Env, st: State, key: string): Step<()>
  {
    if env.kind == SessionStorage then Step(st.(store := st.store - {key}), Ok(()))
    else if st.box.Some? && key in st.box.value then
      var b := st.box.value - {key};
      SaveBoxStep(env, st.(box := Some(b)), b)
    else Step(st, Ok(()))
  }

  /** `specificClear` of each serialized candidate. */
  function ClearHook(kind: Medium, st: State): State
  {
    match kind
    case CookieJar => st.(medium := None, log := st.log + [Teardown])   // deleteCookie
    case UserData => st.(log := st.log + [Teardown])                     // the store expires at once
    case _ => st
  }

  /** `clear()`: an empty box, `save()` with no argument, then the teardown hook. */
  function ClearStep(env: Env, st: State): Step<()>
  {
    if env.kind == SessionStorage then Step(st.(store := map[]), Ok(()))
    else
      var s := SaveStep(env, st.(box := Some(map[])), Undefined);
      if s.result.Err? then s else Step(ClearHook(env.kind, s.state), Ok(()))
  }

  /* ---------------- properties ---------------- */

  /** `get` reads the medium at most once: a second `get` returns the cached box and touches nothing. */
  lemma GetCaches(env: Env, st: State)
    requires GetStep(env, st).result.Ok?
    ensures var s := GetStep(env, st).state;
            GetStep(env, s) == Step(s, GetStep(env, st).result)
  {
  }

  /**
   * `add` never reads the medium: before any `get`, the medium ends up
   * holding only the added entries, whatever it held before.
   */
  lemma AddBeforeGetDropsStored(env: Env, st: State, m: Box)
    requires env.kind in {UserData, WindowName} && env.ready
    requires st.box.None?
    ensures var s := AddStep(env, st, m);
            s.result.Ok? && s.state.medium == Some(env.codec.stringify(m)) && s.state.box == Some(m) &&
            s.state.log == st.log + [Write(env.codec.stringify(m))]
  {
    assert Helper.Mixin(m, map[]) == m;
  }

  /** Without JSON, `add` writes the string `false`, which a later page reads as an empty box. */
  lemma AddWithoutJson(env: Env, st: State, m: Box)
    requires env.kind in {UserData, WindowName} && !env.ready
    ensures var s := AddStep(env, st, m).state;
            s.medium == Some("false") && GetStep(env, s.(box := None)).result == Ok(map[])
  {
  }

  /** `remove` before any `get` does nothing: no read, no write, even if the stored box holds the key. */
  lemma RemoveUnloadedIsNoOp(env: Env, st: State, key: string)
    requires env.kind != SessionStorage && st.box.None?
    ensures RemoveStep(env, st, key) == Step(st, Ok(()))
  {
  }

  /** A second `remove(k)` is a no-op. */
  lemma RemoveTwice(env: Env, st: State, key: string)
    requires RemoveStep(env, st, key).result.Ok?
    ensures var s := RemoveStep(env, st, key).state;
            RemoveStep(env, s, key) == Step(s, Ok(()))
  {
  }

  /**
   * `clear` on the userData and window.name media stores `undefined`,
   * which a later page reads as an empty box; the box itself is empty.
   */
  lemma ClearEmpties(env: Env, st: State)
    requires env.kind in {UserData, WindowName}
    ensures var s := ClearStep(env, st);
            s.result.Ok? && s.state.box == Some(map[]) && s.state.medium == Some("undefined") &&
            GetStep(env, s.state.(box := None)).result == Ok(map[])
  {
  }

  /**
   * `clear` on the cookie medium calls `setCookie` with undefined, so
   * `toString()` throws: the box is emptied, but the cookie keeps its old
   * contents and `deleteCookie` is never reached.
   */
  lemma ClearCookieThrows(env: Env, st: State)
    requires env.kind == CookieJar
    ensures var s := ClearStep(env, st);
            s.result == Err(TypeError) && s.state.box == Some(map[]) &&
            s.state.medium == st.medium && s.state.log == st.log
  {
  }

  /**
   * What `add` writes, a later page's `get` loads back (userData and
   * window.name media; the cookie medium when the string fits).
   */
  lemma SaveThenLoad(env: Env, st: State, b: Box)
    requires Lawful(env.codec) && env.ready && env.kind != SessionStorage
    requires SaveBoxStep(env, st, b).result.Ok?
    ensures GetStep(env, SaveBoxStep(env, st, b).state.(box := None)).result == Ok(b)
  {
    var text := env.codec.stringify(b);
    assert text != [] && text[0] == '{' && env.codec.parse(text) == Some(b);
    if env.kind == CookieJar {
      Cookie.SetThenGet(StoreName, text);
    }
  }

  /** On a loaded box, `add(m)` merges `m` and writes `serialize(box)` exactly once (userData and window.name, JSON present). */
  lemma AddLoadedWritesOnce(env: Env, st: State, m: Box)
    requires env.kind in {UserData, WindowName} && env.ready && st.box.Some?
    ensures var b := Helper.Mixin(m, st.box.value);
            var text := env.codec.stringify(b);
            AddStep(env, st, m) == Step(st.(box := Some(b), medium := Some(text), log := st.log + [Write(text)]), Ok(()))
  {
  }

  /**
   * On a loaded box, `remove(k)` of a present key deletes it and writes once;
   * of an absent key it does nothing (userData and window.name, JSON present).
   */
  lemma RemoveLoaded(env: Env, st: State, key: string)
    requires env.kind in {UserData, WindowName} && env.ready && st.box.Some?
    ensures key in st.box.value ==>
            var b := st.box.value - {key};
            var text := env.codec.stringify(b);
            RemoveStep(env, st, key) == Step(st.(box := Some(b), medium := Some(text), log := st.log + [Write(text)]), Ok(()))
    ensures key !in st.box.value ==> RemoveStep(env, st, key) == Step(st, Ok(()))
  {
  }

  /**
   * As written, a cookie saved by `save(serialize(box))` reads back through
   * the chained decoder, and loads as the same box only when the serialized
   * text has no `%` immediately followed by `S` or `Q`.
   */
  lemma CookieSaveThenLoadAsWritten(env: Env, st: State, b: Box)
    requires Lawful(env.codec) && env.ready && env.kind == CookieJar
    requires SaveBoxStep(env, st, b).result.Ok?
    ensures var text := env.codec.stringify(b);
            var raw := Cookie.ReadAsWritten(StoreName, SaveBoxStep(env, st, b).state.medium);
            && raw == Some(Cookie.UnescapeChained(Cookie.Escape(text)))
            && (Cookie.NoMarker(text) ==> raw == Some(text) && Unserialize(env.codec, env.ready, raw.value) == Ok(b))
  {
    var text := env.codec.stringify(b);
    assert text != [] && text[0] == '{' && env.codec.parse(text) == Some(b);
    Cookie.SetThenGetAsWritten(StoreName, text);
  }

  /* ---------------- the candidate object ---------------- */

  class OldCandidate {
    const name: string
    const kind: Medium
    /** What `isAvailable()` reports in this browser. */
    const supported: bool
    const json: Json
    var box: Option<Box>
    var medium: Option<string>
    var store: Box
    ghost var log: seq<Event>

    ghost function Snapshot(): State
      reads this
    {
      State(box, medium, store, log)
    }

    function CurrentEnv(): Env
      reads this, json
    {
      Env(kind, json.codec, json.ready)
    }

    constructor (name: string, kind: Medium, supported: bool, json: Json, medium: Option<string>, store: Box)
      ensures this.name == name && this.kind == kind && this.supported == supported && this.json == json
      ensures Snapshot() == State(None, medium, store, [])
    {
      this.name, this.kind, this.supported, this.json := name, kind, supported, json;
      box, this.medium, this.store, log := None, medium, store, [];
    }

    /**
     * `init`: nothing for the native candidate; for the serialized ones, start
     * the serializer (the fallback script runs later) and run `specificInit`.
     */
    method Init()
      modifies this`log, json
      ensures kind == SessionStorage ==> json.ready == old(json.ready) && json.pending == old(json.pending)
      ensures kind != SessionStorage ==> json.ready == old(json.ready) && json.pending == (old(json.pending) || !old(json.ready))
      ensures box == old(box) && medium == old(medium) && store == old(store)
      ensures log == old(log) + (if kind == UserData then [Attach] else [])
    {
      if kind == SessionStorage {
        return;
      }
      json.InitDeferred();
      if kind == UserData {
        log := log + [Attach];   // attach the userData behaviour to the root element
      }
    }

    method Save(arg: SaveArg) returns (r: Result<()>)
      modifies this`medium, this`log
      ensures var s := SaveStep(CurrentEnv(), old(Snapshot()), arg); Snapshot() == s.state && r == s.result
    {
      var text: string;
      if kind == CookieJar {
        if arg.Undefined? {
          return Err(TypeError);   // undefined.toString()
        }
        var c := Cookie.SetCookie(StoreName, JsString(arg));
        if c.Err? {
          return Err(c.error);
        }
        text := c.value;
      } else {
        text := JsString(arg);
      }
      medium := Some(text);
      log := log + [Write(JsString(arg))];
      r := Ok(());
    }

    method SaveBox() returns (r: Result<()>)
      requires box.Some?
      modifies this`medium, this`log
      ensures var s := SaveBoxStep(CurrentEnv(), old(Snapshot()), old(box).value); Snapshot() == s.state && r == s.result
    {
      var text := OldSerialize(json.codec, json.ready, box.value);
      r := Save(if text.None? then False else Str(text.value));
    }

    method Get() returns (r: Result<Box>)
      modifies this`box, this`log
      ensures var s := GetStep(CurrentEnv(), old(Snapshot())); Snapshot() == s.state && r == s.result
    {
      if kind == SessionStorage {
        return Ok(store);
      }
      if box.Some? {
        return Ok(box.value);
      }
      var raw := ReadRaw(kind, medium);
      log := log + [Read];
      var obj: Box := map[];
      if raw.Some? && raw.value != [] && raw.value[0] == '{' {
        var u := Unserialize(json.codec, json.ready, raw.value);
        if u.Err? {
          return u;
        }
        obj := u.value;
      }
      box := Some(obj);
      r := Ok(obj);
    }

    method Add(m: Box) returns (r: Result<()>)
      modifies this`box, this`medium, this`store, this`log
      ensures var s := AddStep(CurrentEnv(), old(Snapshot()), m); Snapshot() == s.state && r == s.result
    {
      if kind == SessionStorage {
        store := Helper.Mixin(m, store);
        return Ok(());
      }
      if box.None? {
        box := Some(map[]);
      }
      box := Some(Helper.Mixin(m, box.value));
      r := SaveBox();
    }

    method Remove(key: string) returns (r: Result<()>)
      modifies this`box, this`medium, this`store, this`log
      ensures var s := RemoveStep(CurrentEnv(), old(Snapshot()), key); Snapshot() == s.state && r == s.result
    {
      if kind == SessionStorage {
        store := store - {key};
        return Ok(());
      }
      if box.Some? && key in box.value {
        box := Some(box.value - {key});
        r := SaveBox();
      } else {
        r := Ok(());
      }
    }

    method Clear() returns (r: Result<()>)
      modifies this`box, this`medium, this`store, this`log
      ensures var s := ClearStep(CurrentEnv(), old(Snapshot())); Snapshot() == s.state && r == s.result
    {
      if kind == SessionStorage {
        store := map[];
        return Ok(());
      }
      box := Some(map[]);
      r := Save(Undefined);
      if r.Err? {
        return;
      }
      SpecificClear();
    }

    /** `specificClear`: delete the cookie, or expire the userData store. */
    method SpecificClear()
      modifies this`medium, this`log
      ensures Snapshot() == ClearHook(kind, old(Snapshot()))
    {
      if kind == CookieJar {
        medium := None;          // deleteCookie
        log := log + [Teardown];
      } else if kind == UserData {
        log := log + [Teardown]; // expire the store
      }
    }
  }
}
