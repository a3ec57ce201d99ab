/**
 * Worked runs of both revisions: detection and forcing over three
 * candidates, and a sequence of box operations.
 */
module Scenarios {
  import opened Types
  import opened Serializer
  import opened Adapter
  import opened Registry
  import OldAdapter
  import OldRegistry
  import Helper

  /**
   * Newer revision, candidates [A unavailable, B available, C available]:
   * `detect` activates B, `force("C")` activates C, `force("A")` makes the
   * handle `false`.
   */
  method RegistryRun(codec: Codec) returns (detected: Handle, forcedC: Handle, forcedA: Handle)
    ensures detected.Public? && detected.implementation.name == "B" && detected.methods == CoreMethods
    ensures forcedC.Public? && forcedC.implementation.name == "C"
    ensures forcedA == Unsupported
  {
    var json := new Json(codec, true);
    var a := new Candidate("A", DomStorage, false, json, None);
    var b := new Candidate("B", UserData, true, json, None);
    var c := new Candidate("C", CookieJar, true, json, None);
    var reg := new Registry(json);
    reg.Add(a);
    reg.Add(b);
    reg.Add(c);
    assert reg.list == [a, b, c];
    assert FirstAvailable(reg.list) == 1 by {
      assert !reg.list[0].supported && reg.list[1].supported;
    }
    reg.Detect(false);
    detected := reg.handle;
    forcedC := reg.Force("C", false);
    forcedA := reg.Force("A", false);
  }

  /** The older registry over [A unavailable, B available, C available]. */
  method OldThree(codec: Codec) returns (reg: OldRegistry.OldRegistry, a: OldAdapter.OldCandidate, b: OldAdapter.OldCandidate, c: OldAdapter.OldCandidate)
    ensures fresh(reg) && fresh(reg.json) && fresh(a) && fresh(b) && fresh(c) && reg.Valid()
    ensures reg.list == [a, b, c] && reg.probes == []
    ensures a.name == "A" && !a.supported
    ensures b.name == "B" && b.supported
    ensures c.name == "C" && c.supported
  {
    var json := new Json(codec, true);
    a := new OldAdapter.OldCandidate("A", OldAdapter.SessionStorage, false, json, None, map[]);
    b := new OldAdapter.OldCandidate("B", OldAdapter.UserData, true, json, None, map[]);
    c := new OldAdapter.OldCandidate("C", OldAdapter.CookieJar, true, json, None, map[]);
    reg := new OldRegistry.OldRegistry(json);
    reg.Add(a);
    reg.Add(b);
    reg.Add(c);
  }

  /** Older revision: `detect` probes A and B only, and activates B. */
  method OldDetectRun(codec: Codec) returns (ghost probed: seq<string>, detected: Option<string>)
    ensures probed == ["A", "B"]
    ensures detected == Some("B")
  {
    var reg, a, b, c := OldThree(codec);
    assert OldRegistry.FirstAvailable(reg.list) == 1 by {
      assert !reg.list[0].supported && reg.list[1].supported;
    }
    reg.Detect();
    assert reg.probes == [a, b];   // C is never probed
    probed := [reg.probes[0].name, reg.probes[1].name];
    detected := if reg.active.Some? then Some(reg.active.value.name) else None;
  }

  /** Older revision: `force("A")` activates A although it is unavailable. */
  method OldForceRun(codec: Codec) returns (forced: Option<string>, r: Result<()>)
    ensures forced == Some("A") && r == Ok(())
  {
    var reg, a, _, _ := OldThree(codec);
    assert OldRegistry.Lookup(reg.list, OldRegistry.Str("A")) == OldRegistry.Imp(a) by {
      assert reg.list[0] == a;
    }
    r := reg.Force(OldRegistry.Str("A"));
    forced := if reg.active.Some? then Some(reg.active.value.name) else None;
  }

  /**
   * Newer revision, from an empty box: `add("x", 1)`, `add({"y": 2})`,
   * `get()` gives both entries; after `remove("x")`, `get()` gives `{y: 2}`.
   */
  lemma BoxRun(env: Env, st: State)
    requires env.ready && env.kind != CookieJar && st.box == Some(map[])
    ensures var s1 := AddStep(env, st, Single("x", Number(1))).state;
            var s2 := AddStep(env, s1, Bulk(map["y" := Number(2)])).state;
            var s3 := RemoveStep(env, s2, "x").state;
            && GetStep(env, s2, None).result == Ok(Whole(map["x" := Number(1), "y" := Number(2)]))
            && GetStep(env, s3, None).result == Ok(Whole(map["y" := Number(2)]))
  {
    var s1 := AddStep(env, st, Single("x", Number(1))).state;
    SaveWritesOnce(env, st.(box := Some(map["x" := Number(1)])));
    assert s1.box == Some(map["x" := Number(1)]);
    var both := map["x" := Number(1), "y" := Number(2)];
    assert Helper.Mixin(map["y" := Number(2)], map["x" := Number(1)]) == both;
    var s2 := AddStep(env, s1, Bulk(map["y" := Number(2)])).state;
    SaveWritesOnce(env, s1.(box := Some(both)));
    assert s2.box == Some(both);
    assert both - {"x"} == map["y" := Number(2)];
    SaveWritesOnce(env, s2.(box := Some(map["y" := Number(2)])));
  }
}
