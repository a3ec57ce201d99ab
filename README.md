# Storage wrapper: a Dafny model

This project models both revisions of a small browser script that gives a
page one key/value store across several media: `ssw.js`, the newer one, and
`ssw-old.js`, the older one. The media are HTML 5 sessionStorage, the IE
userData behaviour, a session cookie and `window.name`. Each revision has the
same three parts:

- **The implementation registry.** It is an ordered list of candidate media,
  also indexed by name. `detect` probes each candidate's `isAvailable()` and
  activates the first one that answers yes. `force(name)` overrides that
  choice. `setup` either publishes the active candidate's
  `get`/`add`/`remove`/`clear` or marks the store unsupported.
- **The "serialized" template.** A medium that can only hold one string
  keeps the whole store in an in-memory *box* (a map). The box is read from
  the medium when first needed, and after each change the whole box is
  serialized and written back.
- **The cookie codec.** This is a three-rule escape (`%`→`%%`, `;`→`%S`,
  `"`→`%Q`) and its inverse. There is a 4096-character size guard, and a
  lookup in a `name=value; name=value` string, the cookie-string shape of
  section 4.2.1 of RFC 6265.

The modules are:

| file | module | models |
|---|---|---|
| `types.dfy` | `Types` | JSON-like values, the box, errors, `Option`/`Result` |
| `helper.dfy` | `Helper` | `helper.forEach` (first non-undefined callback result) and `helper.mixin` |
| `serializer.dfy` | `Serializer` | `serializers.json`, abstract, plus the page's JSON capability as a `Json` object |
| `cookie.dfy` | `Cookie` | `escapeCookie`, `unescapeCookie`, `setCookie`, `getCookie` |
| `adapter.dfy` | `Adapter` | the newer "serialized" template and its four media, as a `Candidate` class |
| `registry.dfy` | `Registry` | the newer `implementation` object, as a `Registry` class |
| `old_adapter.dfy` | `OldAdapter` | the older template, the native sessionStorage candidate, and the other three media |
| `old_registry.dfy` | `OldRegistry` | the older `storage.implementation` object |
| `scenarios.dfy` | `Scenarios` | worked runs of both registries and of the box |

How the state-changing code is modelled:

- Each box operation takes an explicit `State` and returns a `Step` with the
  new state and the result. A state is the box (`None` until loaded), the
  medium's contents and a log of the reads and writes on the medium.
- The `Candidate` and `OldCandidate` classes hold the same fields and do the
  same work step by step. Each method's postcondition is "the new fields are
  the step function applied to the old fields". The lemmas on the step
  functions carry the properties.
- The registries are classes. `list` is a sequence field, and the name index
  is a map field.
- `detect` is a loop over the list. Its postcondition states the priority
  rule through `FirstAvailable`. A ghost `probes` sequence records which
  candidates had `isAvailable()` called.

The serializer is a pair of function values, `stringify` and `parse`.
Whether JSON exists in the page is a flag, `ready`. The property the
adapters rely on is a predicate, `Lawful`: a box stringifies to a string that
starts with `{` and parses back to the same box. Every round-trip lemma takes
`Lawful` as a hypothesis.

Where the library's own comments and descriptions differ from its code, the
model follows the code:

- **Which side of `add(template, candidate)` wins.** The call is
  `mixin(obj1, obj2)`, which copies the template over the candidate, so the
  template's fields would win on a clash (`ssw.js:149-160`, `ssw.js:62-67`,
  `Helper.Mixin`). No registered candidate defines a member the serialized
  template also defines, so the order has no effect on the library's
  behaviour.
- **How the newer revision loads the fallback JSON script.** It is loaded
  synchronously with XHR and `eval`, so `Json.Init` makes JSON available at
  once when the fetch works. Only the older revision inserts a script tag
  that runs later; see `Json.InitDeferred` and `Json.ScriptLoaded`.
- **What the newer `clear` writes.** It writes `serialize({})`, which is
  `{}`, not an empty or undefined string. Only the older `clear` calls
  `save()` with no argument.
- **The codec round trip.** It does not hold for every string; see Findings.
- **The size limit.** The 4096 limit counts characters, not bytes.

Two behaviours fall straight out of the code:

- **The older `clear` on the cookie medium.** It throws a TypeError, because
  `escapeCookie(undefined)` calls `toString()` on undefined. The box is
  emptied, but the cookie keeps its old contents and is not deleted
  (`OldAdapter.ClearCookieThrows`).
- **The guard in `unserialize`.** `!(window.JSON || JSON.parse)` can never
  decide the outcome by itself. Without a JSON global, evaluating `JSON.parse`
  already throws. So the model fails exactly when JSON is missing.

## Model

| member | source | states |
|---|---|---|
| Helper.FirstResult | ssw.js:34-55 | the callback result for the first element where it is not undefined; `null` (None) exactly when every callback gives undefined (the same helper is ssw-old.js:20-35) |
| Helper.FirstResultAt | ssw.js:38-44 | if the element at `i` is the first with a result, that result is what `forEach` returns |
| Helper.ForEach | ssw.js:34-55 | the loop with early return computes exactly the first result |
| Helper.FirstIndex | ssw.js:173-181 | the position of the first element satisfying the predicate, every earlier one failing it, or the length when none does |
| Helper.Mixin | ssw.js:62-67 | the target gains every key of the source with the source's value; the target's other keys keep their values; no other keys appear (also ssw-old.js:37-42) |
| Serializer.SerializeRoundTrip | ssw.js:120-132 | with JSON present, `serialize` succeeds and `unserialize` of its output gives the box back; the older `serialize` returns the same string |
| Serializer.SerializeFailure | ssw.js:120-132 | without JSON, both `unserialize`s and the newer `serialize` fail with SerializationUnavailable, and the older `serialize` returns `false` (ssw-old.js:72-79); with JSON, `unserialize` fails exactly where the parser does |
| Serializer.Json.Init | ssw.js:113-118 | JSON is present afterwards iff it was before or the synchronous fallback load defined it |
| Serializer.Json.InitDeferred | ssw-old.js:66-71 | without JSON a fallback script is pending and JSON is still absent; with JSON nothing changes |
| Serializer.Json.ScriptLoaded | ssw-old.js:44-50 | once the inserted fallback script runs, JSON is present and nothing is pending |
| Cookie.EscapeCons | ssw.js:435-441 | the escape works character by character: `%`→`%%`, `;`→`%S`, `"`→`%Q`, every other character unchanged |
| Cookie.EscapeEmpty | ssw.js:435-441 | the empty string escapes to itself |
| Cookie.EscapeHead | ssw.js:435-441 | the first output character is `%` for a special character and the input's first character otherwise |
| Cookie.EscapeIsSafe | ssw.js:435-441 | escaped text never contains `;` or `"` |
| Cookie.EscapeLength | ssw.js:435-441 | escaping at most doubles the length and keeps only the empty string empty |
| Cookie.UndoQuote | ssw.js:443-445 | on input with no `%` before `S` or `Q`, the first replace (`%Q`→`"`) undoes exactly the quote rule |
| Cookie.UndoSemicolon | ssw.js:443-445 | under the same condition, the second replace (`%S`→`;`) undoes exactly the semicolon rule |
| Cookie.UndoPercent | ssw.js:443-445 | the third replace (`%%`→`%`) undoes the percent rule |
| Cookie.ChainedRoundTrip | ssw.js:435-445 | `unescapeCookie(escapeCookie(s)) == s` for every `s` with no `%` immediately followed by `S` or `Q` |
| Cookie.ChainedRoundTripFails | ssw.js:443-445 | `%Q` escapes to `%%Q`, which the chained replaces decode to `%"` |
| Cookie.RoundTrip | ssw.js:435-445 | the single-scan decoder inverts the escape on every string |
| Cookie.UnescapeAgrees | ssw.js:443-445 | where the chained decoder is correct, it agrees with the single-scan decoder |
| Cookie.SetCookie | ssw.js:465-471 | fails with CookieTooLarge exactly when `name.length + 1 + escaped.length > 4096`, so 4096 is accepted; otherwise the cookie string is `name=escaped` |
| Cookie.SetCookieBounds | ssw.js:465-471 | any value of at most `(4096 - name.length - 1) / 2` characters fits; any value longer than `4096 - name.length - 1` does not |
| Cookie.IndexOf | ssw.js:453 | `indexOf`: the position of the first occurrence, or -1 exactly when the character is absent |
| Cookie.SkipSpace | ssw.js:448 | drops exactly the leading run of `\s` characters: the dropped prefix is all whitespace and what remains starts with a non-space |
| Cookie.SplitPairs | ssw.js:448 | `split(/;\s*/)` gives at least one piece, no piece contains `;`, and the first piece is the text before the first `;` (the whole string when there is none); the later pieces are trimmed (`Cookie.SplitPairsTrimmed`), counted (`Cookie.SplitPairsCount`) and fixed by their join (`Cookie.SplitPairsJoin`) |
| Cookie.SplitPairsJoin | ssw.js:448 | the pieces' contents: joined back with `;`, they give the cookie string with the whitespace run after each `;` removed, as an independent character scan (`Collapse`) computes it; with no `;` inside a piece this fixes every piece |
| Cookie.SplitPairsTrimmed | ssw.js:448 | the `\s*` of the separator: every piece after the first is empty or starts with a non-space character, because the whitespace after each `;` is consumed |
| Cookie.SplitPairsCount | ssw.js:448 | there is one piece more than there are `;` in the cookie string |
| Cookie.SplitSingle | ssw.js:448 | a string without `;` splits into itself |
| Cookie.GetCookieFirstMatch | ssw.js:447-463 | the first pair whose text before its first `=` equals the name decides the result: its value decoded, or `false` (None) when that value is empty; stated for the corrected decoder and for the chained one as written |
| Cookie.GetCookieNoMatch | ssw.js:447-463 | with no matching pair the result is `false` (None), for both decoders |
| Cookie.SetThenText | ssw.js:447-471 | in the cookie string `setCookie` produced, the lookup finds the escaped value, or nothing when the value is empty |
| Cookie.SetThenGet | ssw.js:447-471 | with the corrected decoder, looking a name up in the cookie string `setCookie` produced gives the stored value back, or `false` when the value is empty |
| Cookie.SetThenGetAsWritten | ssw.js:443-471 | as written, the lookup gives back the chained decoding of the escaped value, which is the value itself whenever it has no `%` immediately followed by `S` or `Q` |
| Cookie.SetThenGetAsWrittenFails | ssw.js:443-471 | as written, a cookie holding `%Q` reads back as `%"` |
| Adapter.DomStorageRead | ssw.js:334-337 | a missing sessionStorage item reads as the empty string, a present one as its text |
| Adapter.ReadsOnce | ssw.js:268-275 | `readBox` logs one read when the box is unset and none when it is set; after a successful load, `readBox` and `get` change nothing |
| Adapter.LoadRule | ssw.js:268-275 | a null, false, empty or non-`{` string loads as the empty box; a `{` string loads as its unserialization |
| Adapter.GetAnswers | ssw.js:284-287 | `get()` returns the whole loaded box, and `get(k)` returns its value at `k` or undefined |
| Adapter.SaveWritesAtMostOnce | ssw.js:277-280 | saving the box leaves it as it was, and either changes nothing or writes the serialized box once |
| Adapter.SaveWritesOnce | ssw.js:277-280 | with JSON present and a non-cookie medium, the medium ends up holding `serialize(box)` after exactly one write |
| Adapter.AddSetsKey | ssw.js:289-297 | `add(k, v)` sets `k` to `v`, and every other key keeps its loaded presence and value |
| Adapter.AddMerges | ssw.js:289-297 | `add(m)` gives the union of keys, `m` winning on clashes and loaded values kept elsewhere |
| Adapter.AddWritesOnce | ssw.js:289-297 | with JSON present and a non-cookie medium, `add` loads the box, applies the change, and leaves the medium holding `serialize(box)` after exactly one write |
| Adapter.RemoveAbsent | ssw.js:299-305 | removing an absent key only loads the box: no write, no other change |
| Adapter.RemoveDeletes | ssw.js:299-305 | removing a present key leaves the loaded box without exactly that key |
| Adapter.RemoveWritesOnce | ssw.js:299-305 | with JSON present and a non-cookie medium, removing a present key leaves the medium holding the serialized box without it, after exactly one write |
| Adapter.RemoveTwice | ssw.js:299-305 | after a successful `remove(k)`, a second `remove(k)` changes nothing and writes nothing |
| Adapter.ClearThenGet | ssw.js:307-313 | `clear` never reads the medium; after it succeeds, `get()` is the empty box and `get(k)` is undefined, with no read |
| Adapter.ClearWritesOnce | ssw.js:307-313 | with JSON present and a non-cookie medium, `clear` empties the box, writes `serialize({})` exactly once without reading, then runs the teardown hook |
| Adapter.SaveThenLoad | ssw.js:268-280 | what a successful `saveBox` leaves in any of the four media, a fresh `readBox` loads back as the same box (the cookie medium with the corrected decoder) |
| Adapter.CookieSaveThenLoadAsWritten | ssw.js:419-463 | as written, a saved cookie reads back as the chained decoding of the serialized box, and loads as the same box when that text has no `%` immediately followed by `S` or `Q` |
| Adapter.Candidate.Init | ssw.js:247-255 | initializes the serializer, attaches the userData element, and does not read the box |
| Adapter.Candidate.ReadBox | ssw.js:268-275 | the candidate's fields change exactly as `ReadBoxStep` prescribes |
| Adapter.Candidate.Save | ssw.js:419-425 | the cookie medium skips an empty string and otherwise stores `setCookie`'s string or fails; other media store the text; one write is logged iff something was stored |
| Adapter.Candidate.SaveBox | ssw.js:277-280 | fields change as `SaveBoxStep` prescribes: serialize, then `save` |
| Adapter.Candidate.Get | ssw.js:284-287 | fields and result as `GetStep` prescribes |
| Adapter.Candidate.Add | ssw.js:289-297 | fields and result as `AddStep` prescribes |
| Adapter.Candidate.Remove | ssw.js:299-305 | fields and result as `RemoveStep` prescribes |
| Adapter.Candidate.Clear | ssw.js:307-313 | fields and result as `ClearStep` prescribes: empty box, save, then the teardown hook |
| Adapter.Candidate.SpecificClear | ssw.js:431-433 | the cookie candidate deletes its cookie; userData expires its store (ssw.js:392-395); the others do nothing |
| Registry.FirstAvailable | ssw.js:170-183 | the index of the first candidate whose probe succeeds, with every earlier one failing, or the list length |
| Registry.FirstAvailablePrefix | ssw.js:174-181 | `availableImp = availableImp \|\| imp` keeps the first available candidate seen so far |
| Registry.Registry.Add | ssw.js:149-160 | appends the candidate to the list and indexes it under its name, the last one added winning |
| Registry.Registry.Get | ssw.js:164-166 | `list[name]` is the candidate last added under that name, and `list[i]` the element at a valid index; undefined otherwise |
| Registry.Registry.Setup | ssw.js:197-222 | no candidate makes the handle `false` and initializes nothing (JSON state and every candidate's log unchanged); otherwise the candidate's `init` runs (JSON made ready when present or fetched, userData attached, no other candidate touched) and the handle exposes it with exactly get/add/remove/clear |
| Registry.Registry.Detect | ssw.js:170-183 | probes every candidate once in order, sets each `available` flag to the probe result, and publishes and initializes the first available candidate (JSON readiness, userData attach), or `false` with nothing initialized when there is none |
| Registry.Registry.Force | ssw.js:187-193 | publishes and initializes the named candidate if it exists and was available at the last `detect`, and `false` with nothing initialized otherwise |
| OldAdapter.GetCaches | ssw-old.js:173-180 | after a successful `get`, a second `get` returns the cached box and touches nothing |
| OldAdapter.AddBeforeGetDropsStored | ssw-old.js:181-187 | before any `get`, `add(m)` overwrites the medium with `serialize(m)` alone, whatever it held, in one write |
| OldAdapter.AddWithoutJson | ssw-old.js:181-187 | without JSON, `add` stores the string `false`, which a later page loads as an empty box |
| OldAdapter.AddLoadedWritesOnce | ssw-old.js:181-187 | on a loaded box, `add(m)` merges `m` and leaves the medium holding `serialize(box)` after exactly one write |
| OldAdapter.RemoveUnloadedIsNoOp | ssw-old.js:188-193 | before any `get`, `remove` does nothing at all |
| OldAdapter.RemoveLoaded | ssw-old.js:188-193 | on a loaded box, removing a present key deletes it and writes the serialized box once; removing an absent key changes nothing and writes nothing |
| OldAdapter.RemoveTwice | ssw-old.js:188-193 | a second `remove(k)` changes nothing |
| OldAdapter.ClearEmpties | ssw-old.js:194-201 | on userData and window.name, `clear` empties the box and stores `undefined`, which a later page loads as empty |
| OldAdapter.ClearCookieThrows | ssw-old.js:194-201 | on the cookie medium, `clear` throws a TypeError after emptying the box, and the cookie is neither rewritten nor deleted |
| OldAdapter.SaveThenLoad | ssw-old.js:173-187 | what `this.save(this.serialize(box))` stores, a fresh `get` loads back, on every serialized medium (the cookie medium with the corrected decoder) |
| OldAdapter.CookieSaveThenLoadAsWritten | ssw-old.js:285-321 | as written, a saved cookie reads back as the chained decoding of the serialized box, and unserializes to the same box when that text has no `%` immediately followed by `S` or `Q` |
| OldAdapter.OldCandidate.Init | ssw-old.js:154-161 | the serialized candidates start the deferred serializer load and attach userData; the native candidate's `init` does nothing (ssw-old.js:214) |
| OldAdapter.OldCandidate.Save | ssw-old.js:288-290 | fields and result as `SaveStep` prescribes: `setCookie` on the string form, with undefined throwing; other media store the string form |
| OldAdapter.OldCandidate.SaveBox | ssw-old.js:186 | fields and result as `SaveBoxStep` prescribes: a failed serialization saves `false` |
| OldAdapter.OldCandidate.Get | ssw-old.js:173-180 | fields and result as `GetStep` prescribes; the native candidate returns sessionStorage itself (ssw-old.js:222-224) |
| OldAdapter.OldCandidate.Add | ssw-old.js:181-187 | fields and result as `AddStep` prescribes; the native candidate mixes into sessionStorage |
| OldAdapter.OldCandidate.Remove | ssw-old.js:188-193 | fields and result as `RemoveStep` prescribes; the native candidate removes the item |
| OldAdapter.OldCandidate.Clear | ssw-old.js:194-201 | fields and result as `ClearStep` prescribes; the native candidate clears sessionStorage |
| OldAdapter.OldCandidate.SpecificClear | ssw-old.js:296-298 | the cookie is deleted; userData expires (ssw-old.js:266-268); window.name has no hook |
| OldRegistry.Lookup | ssw-old.js:103-113 | a string gives a candidate whenever one has that name, namely the first with that name in list order, and `null` iff none has it; a number gives the element at that index or undefined; any other type gives `false` |
| OldRegistry.FirstAvailable | ssw-old.js:117-123 | the index of the first available candidate, or the length |
| OldRegistry.Probed | ssw-old.js:117-123 | the candidates `detect` probes: a prefix of the list ending at the first available one, all earlier ones unavailable, or the whole list when none is available |
| OldRegistry.OldRegistry.Add | ssw-old.js:92-99 | appends to the list and sets the name property |
| OldRegistry.OldRegistry.Get | ssw-old.js:103-113 | the `forEach` search computes `Lookup` |
| OldRegistry.OldRegistry.Setup | ssw-old.js:133-145 | installs exactly the four forwarding methods first, then `init()`: a serialized candidate starts the deferred JSON load when JSON is absent and userData is attached, and the candidate becomes `active`; a falsy argument makes `init()` throw a TypeError, leaving `active`, the JSON state and every log unchanged |
| OldRegistry.OldRegistry.Detect | ssw-old.js:117-123 | probes candidates only up to the first available one and sets it up, running its `init()` (deferred JSON load, userData attach) and no other; with none, nothing is set up or initialized |
| OldRegistry.OldRegistry.Force | ssw-old.js:127-129 | sets up whatever `get(name)` returns, with no availability check: a found candidate's `init()` runs, anything else throws without initializing |
| Scenarios.RegistryRun | ssw.js:170-193 | with [A unavailable, B, C available]: `detect` publishes B, `force("C")` publishes C, and `force("A")` gives `false` |
| Scenarios.OldDetectRun | ssw-old.js:117-123 | with [A unavailable, B, C available]: `detect` calls `isAvailable()` on A and B only, in that order, and activates B |
| Scenarios.OldForceRun | ssw-old.js:127-145 | with the same candidates: `force("A")` activates the unavailable A and succeeds |
| Scenarios.BoxRun | ssw.js:284-305 | from an empty box: `add("x", 1)`, then `add({"y": 2})`, then `get()` gives `{x: 1, y: 2}`; after `remove("x")`, `get()` gives `{y: 2}` |

## Left out

- Cookie.GetCookie: the lookup decodes with the corrected single-scan `Unescape` rather than the chained replaces as written. The as-written lookup is `Cookie.GetCookieAsWritten`; see Findings.
- Cookie.SetThenGet: holds for the corrected decoder only. As written, the value comes back only when it has no `%` immediately followed by `S` or `Q` (`Cookie.SetThenGetAsWritten`), and `%Q` comes back as `%"` (`Cookie.SetThenGetAsWrittenFails`).
- Adapter.SaveThenLoad: on the cookie medium it holds for the corrected decoder only. As written it needs serialized text with no `%` immediately followed by `S` or `Q` (`Adapter.CookieSaveThenLoadAsWritten`); a stored string value such as `50%Sale` reads back as `50%;ale`.
- OldAdapter.SaveThenLoad: on the cookie medium it holds for the corrected decoder only. As written it needs the same condition (`OldAdapter.CookieSaveThenLoadAsWritten`).
- Script loading (`ssw.js:83-96`, `ssw-old.js:44-50`) is I/O and `eval`. Its outcome is a parameter (`fetched`) in the newer revision and an event (`Json.ScriptLoaded`) in the older one.
- JSON itself is abstract: `stringify` and `parse` are parameters, and the round trip is the `Lawful` hypothesis. Key order and number formatting in the serialized text are not modelled.
- `isAvailable()` probes are the candidate constant `supported`. The cookie probe's test cookie (`ssw.js:410-413`) is not modelled.
- The cookie medium is a `document.cookie` string holding only this store's cookie. Other cookies, cookie attributes, the browser's assignment semantics and the `expires` date that `deleteCookie` writes are left out. Deleting makes the medium empty.
- userData expiry (`ssw.js:392-395`, `ssw-old.js:266-268`) is a logged `Teardown` event. The store's contents stay until the browser drops them.
- The element creation of userData's `specificInit` is a logged `Attach` event.
- Floating-point numbers: JSON numbers are integers here.
- Registry.Registry.Get: `list[param]` also reaches the array's own members (`length`, `push`, numeric strings used as names). The model looks up registered names and integer indices only.
- OldRegistry.Lookup: a number argument is an integer. Fractional and NaN indices, which give undefined, are not modelled.
- `name in this.box` and `this.box[key]` also see inherited `Object.prototype` members such as `toString`. The model's box holds only its own keys.
- `get()` returns the live box object; the model returns its value.
- The native sessionStorage candidate of the older revision is a map of values. sessionStorage's conversion of stored values to strings is not modelled.
- The 4096 limit is on UTF-16 code units. Strings here are sequences of characters.
- The public interface object, `helper.bind`, `window[publicInterfaceName]`, `forceImplementation` and `implementation = null` (`ssw.js:511`) become the `Handle` datatype (newer revision) and the `Binding` datatype (older revision).
- Calling the older revision's installed wrappers is left out. Their target is recorded: a falsy target would throw on every call.
- `implementation.add` with a template: the model registers an already mixed candidate. The mixin itself is `Helper.Mixin`, and the `if (imp)` test is always true for an object.

## Findings

| source | as written | input that shows it | evidently intended | confidence | as-written member | corrected member |
|---|---|---|---|---|---|---|
| ssw.js:443-445 | `unescapeCookie` undoes `%Q`, then `%S`, then `%%` with three global replaces, so a `%%` produced by escaping `%` is read as the start of a marker (ssw-old.js:305-307 is the same) | `escapeCookie("%Q")` is `%%Q`, and `unescapeCookie("%%Q")` is `%"`, not `%Q` | the inverse of the escape: one left-to-right scan that reads `%%`, `%S` and `%Q` as single units | not executed | Cookie.UnescapeChained, Cookie.ChainedRoundTripFails, Cookie.SetThenGetAsWrittenFails | Cookie.Unescape, Cookie.RoundTrip, Cookie.SetThenGet |
