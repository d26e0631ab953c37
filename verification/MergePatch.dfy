/**
 JSON merge patches, three times: the node's `merge_patch`, the console's `mergePatch` and
 section 2 of RFC 7386. The node patches the snapshot it serves and streams the same patch to
 consoles that hold a copy, so the two must agree.
 */
module MergePatch {
  import opened Prelude

  datatype Json =
    | Null | Bool(b: bool) | Number(n: int) | Str(s: string) | Array(items: seq<Json>) | Object(fields: map<string, Json>)

  /** A missing field reads as null. */
  function Field(t: Json, k: string): Json {
    if t.Object? && k in t.fields then t.fields[k] else Null
  }

  function Fields(t: Json): map<string, Json> { if t.Object? then t.fields else map[] }

  // ----- The reference ----------------------------------------------------------------------------------

  /** Section 2 of RFC 7386. */
  function Rfc(t: Json, p: Json): Json
    decreases p
  {
    if !p.Object? then p
    else Object(map k | k in Fields(t).Keys + p.fields.Keys && !(k in p.fields && p.fields[k].Null?)
                      :: if k in p.fields then Rfc(Field(t, k), p.fields[k]) else Fields(t)[k])
  }

  // ----- The node ---------------------------------------------------------------------------------------

  /** What `merge_patch` leaves in the target: only two objects merge, anything else is replaced. */
  function Node(t: Json, p: Json): Json
    decreases p
  {
    if !p.Object? || !t.Object? then p
    else Object(map k | k in t.fields.Keys + p.fields.Keys && !(k in p.fields && p.fields[k].Null?)
                      :: if k in p.fields then Node(Field(t, k), p.fields[k]) else t.fields[k])
  }

  /** The keys in `done` already have their merged value, the others their old one. */
  ghost predicate Merging(was: map<string, Json>, now: map<string, Json>, merged: map<string, Json>, done: set<string>) {
    && (forall k :: k in done ==> (k in now <==> k in merged) && (k in merged ==> now[k] == merged[k]))
    && (forall k :: k !in done ==> (k in now <==> k in was) && (k in was ==> now[k] == was[k]))
  }

  /** `merge_patch`, over the patch's entries in any order. */
  method MergePatchNode(t: Json, p: Json) returns (r: Json)
    ensures r == Node(t, p)
    decreases p
  {
    if !t.Object? || !p.Object? {
      return p;
    }
    ghost var merged := Node(t, p).fields;
    var now := t.fields;
    var todo, done := p.fields.Keys, {};
    while todo != {}
      invariant todo + done == p.fields.Keys && todo !! done
      invariant Merging(t.fields, now, merged, done)
      decreases todo
    {
      var k :| k in todo;
      var v := p.fields[k];
      if v.Null? {
        now := now - {k};
      } else {
        var slot := if k in now then now[k] else Null;
        slot := MergePatchNode(slot, v);
        now := now[k := slot];
      }
      todo, done := todo - {k}, done + {k};
    }
    assert now == merged;
    r := Object(now);
  }

  // ----- The console ------------------------------------------------------------------------------------

  /** What the console makes of a patch: the RFC's value, but `undefined` (None) for a null patch. */
  function Console(t: Option<Json>, p: Json): Option<Json> {
    if p.Null? then None else Some(Rfc(if t.Some? then t.value else Null, p))
  }

  /** `mergePatch`, over the patch's entries in any order. */
  method MergePatchConsole(t: Option<Json>, p: Json) returns (r: Option<Json>)
    ensures r == Console(t, p)
    decreases p
  {
    if p.Null? {
      return None;
    }
    if !p.Object? {
      return Some(p);
    }
    ghost var target := if t.Some? then t.value else Null;
    ghost var merged := Rfc(target, p).fields;
    var base: map<string, Json> := if t.Some? && t.value.Object? then t.value.fields else map[];
    var todo, done := p.fields.Keys, {};
    while todo != {}
      invariant todo + done == p.fields.Keys && todo !! done
      invariant Merging(Fields(target), base, merged, done)
      decreases todo
    {
      var k :| k in todo;
      var v := p.fields[k];
      if v.Null? {
        base := base - {k};
      } else {
        var slot := MergePatchConsole(if k in base then Some(base[k]) else None, v);
        base := base[k := slot.value];
      }
      todo, done := todo - {k}, done + {k};
    }
    assert base == merged;
    r := Some(Object(base));
  }

  // ----- When the node follows the RFC ------------------------------------------------------------------

  /** No field of the patch, at any depth of objects, is null. */
  ghost predicate NullFree(p: Json) {
    p.Object? ==> forall k :: k in p.fields ==> !p.fields[k].Null? && NullFree(p.fields[k])
  }

  /** Sub-objects of the patch are null-free wherever they meet a non-object. */
  ghost predicate Compatible(t: Json, p: Json)
    decreases p
  {
    if !t.Object? then NullFree(p)
    else p.Object? ==> forall k :: k in p.fields && !p.fields[k].Null? ==> Compatible(Field(t, k), p.fields[k])
  }

  lemma RfcField(t: Json, p: Json, k: string)
    requires p.Object?
    ensures var r := Rfc(t, p);
      && r.Object?
      && (k in r.fields <==> (k in p.fields && !p.fields[k].Null?) || (k !in p.fields && k in Fields(t)))
      && (k in r.fields ==> r.fields[k] == if k in p.fields then Rfc(Field(t, k), p.fields[k]) else Fields(t)[k])
  {
  }

  lemma NodeField(t: Json, p: Json, k: string)
    requires p.Object? && t.Object?
    ensures var r := Node(t, p);
      && r.Object?
      && (k in r.fields <==> (k in p.fields && !p.fields[k].Null?) || (k !in p.fields && k in t.fields))
      && (k in r.fields ==> r.fields[k] == if k in p.fields then Node(Field(t, k), p.fields[k]) else t.fields[k])
  {
  }

  /** Two objects with the same fields are the same. */
  lemma SameObject(a: Json, b: Json)
    requires a.Object? && b.Object?
    requires forall k :: (k in a.fields <==> k in b.fields) && (k in a.fields ==> a.fields[k] == b.fields[k])
    ensures a == b
  {
    assert a.fields == b.fields;
  }

  /** Laid over a non-object, a patch comes out as it is exactly when it is null-free. */
  lemma {:induction false} NullFreeIsKept(t: Json, p: Json)
    requires !t.Object?
    ensures Rfc(t, p) == p <==> NullFree(p)
    decreases p
  {
    if p.Object? {
      forall k ensures k in p.fields ==> (Rfc(Null, p.fields[k]) == p.fields[k] <==> NullFree(p.fields[k])) {
        if k in p.fields {
          NullFreeIsKept(Null, p.fields[k]);
        }
      }
      if NullFree(p) {
        SameObject(Rfc(t, p), p);
      }
    }
  }

  /** The node's merge is the RFC's if and only if the patch is compatible with the target. */
  lemma {:induction false} NodeFollowsRfcIff(t: Json, p: Json)
    ensures Node(t, p) == Rfc(t, p) <==> Compatible(t, p)
    decreases p
  {
    if !t.Object? {
      NullFreeIsKept(t, p);
    } else if p.Object? {
      forall k ensures k in p.fields ==>
        (Node(Field(t, k), p.fields[k]) == Rfc(Field(t, k), p.fields[k]) <==> Compatible(Field(t, k), p.fields[k]))
      {
        if k in p.fields {
          NodeFollowsRfcIff(Field(t, k), p.fields[k]);
        }
      }
      if Compatible(t, p) {
        forall k ensures (k in Node(t, p).fields <==> k in Rfc(t, p).fields)
            && (k in Node(t, p).fields ==> Node(t, p).fields[k] == Rfc(t, p).fields[k])
        {
          NodeField(t, p, k);
          RfcField(t, p, k);
        }
        SameObject(Node(t, p), Rfc(t, p));
      } else {
        var k :| k in p.fields && !p.fields[k].Null? && !Compatible(Field(t, k), p.fields[k]);
        NodeField(t, p, k);
        RfcField(t, p, k);
      }
    }
  }

  // ----- Applying a patch again ---------------------------------------------------------------------------

  /** Re-applying a patch changes nothing, for the RFC and so for the console. */
  lemma {:induction false} RfcIsIdempotent(t: Json, p: Json)
    ensures Rfc(Rfc(t, p), p) == Rfc(t, p)
    decreases p
  {
    if p.Object? {
      var once := Rfc(t, p);
      forall k ensures (k in Rfc(once, p).fields <==> k in once.fields)
          && (k in once.fields ==> Rfc(once, p).fields[k] == once.fields[k])
      {
        RfcField(t, p, k);
        RfcField(once, p, k);
        if k in p.fields && !p.fields[k].Null? {
          RfcIsIdempotent(Field(t, k), p.fields[k]);
        }
      }
      SameObject(Rfc(once, p), once);
    }
  }

  lemma {:induction false} SelfMergeIff(p: Json)
    ensures Node(p, p) == p <==> NullFree(p)
  {
    if p.Object? {
      forall k ensures k in p.fields ==> (Node(p.fields[k], p.fields[k]) == p.fields[k] <==> NullFree(p.fields[k])) {
        if k in p.fields {
          SelfMergeIff(p.fields[k]);
        }
      }
      if NullFree(p) {
        SameObject(Node(p, p), p);
      } else {
        var k :| k in p.fields && (p.fields[k].Null? || !NullFree(p.fields[k]));
        NodeField(p, p, k);
      }
    }
  }

  /** Re-applying a patch changes nothing on the node exactly when it was compatible. */
  lemma {:induction false} NodeIsIdempotentIff(t: Json, p: Json)
    ensures Node(Node(t, p), p) == Node(t, p) <==> Compatible(t, p)
    decreases p
  {
    if !t.Object? {
      SelfMergeIff(p);
    } else if p.Object? {
      var once := Node(t, p);
      forall k ensures k in p.fields && !p.fields[k].Null? ==> (k in once.fields
        && (Node(once.fields[k], p.fields[k]) == once.fields[k] <==> Compatible(Field(t, k), p.fields[k])))
      {
        if k in p.fields && !p.fields[k].Null? {
          NodeField(t, p, k);
          NodeIsIdempotentIff(Field(t, k), p.fields[k]);
        }
      }
      MergedAgainIff(t, p);
    }
  }

  lemma MergedAgainIff(t: Json, p: Json)
    requires t.Object? && p.Object?
    requires forall k :: k in p.fields && !p.fields[k].Null? ==> (k in Node(t, p).fields
      && (Node(Node(t, p).fields[k], p.fields[k]) == Node(t, p).fields[k] <==> Compatible(Field(t, k), p.fields[k])))
    ensures Node(Node(t, p), p) == Node(t, p) <==> Compatible(t, p)
  {
    var once := Node(t, p);
    if Compatible(t, p) {
      forall k ensures (k in Node(once, p).fields <==> k in once.fields)
          && (k in once.fields ==> Node(once, p).fields[k] == once.fields[k])
      {
        NodeField(t, p, k);
        NodeField(once, p, k);
      }
      SameObject(Node(once, p), once);
    } else {
      var k :| k in p.fields && !p.fields[k].Null? && !Compatible(Field(t, k), p.fields[k]);
      NodeField(once, p, k);
    }
  }

  // ----- Node and console over time -------------------------------------------------------------------------

  /** Both hold the same value now and after every further patch. */
  ghost predicate InStep(node: Json, console: Option<Json>, patches: seq<Json>)
    decreases |patches|
  {
    && console == Some(node)
    && (patches == [] || InStep(Node(node, patches[0]), Console(console, patches[0]), patches[1..]))
  }

  /** Every patch is compatible with the value it arrives at, and none is null. */
  ghost predicate AllCompatible(seed: Json, patches: seq<Json>)
    decreases |patches|
  {
    patches == [] ||
    (!patches[0].Null? && Compatible(seed, patches[0]) && AllCompatible(Node(seed, patches[0]), patches[1..]))
  }

  /** One patch keeps them together exactly when it is compatible and not null. */
  lemma OnePatchIff(seed: Json, p: Json)
    ensures Console(Some(seed), p) == Some(Node(seed, p)) <==> !p.Null? && Compatible(seed, p)
  {
    NodeFollowsRfcIff(seed, p);
  }

  /** A console seeded from the node's snapshot stays in step over a stream of patches if and only
      if every patch is compatible with the value it arrives at. */
  lemma {:induction false} StayInStepIff(seed: Json, patches: seq<Json>)
    ensures InStep(seed, Some(seed), patches) <==> AllCompatible(seed, patches)
    decreases |patches|
  {
    if patches != [] {
      OnePatchIff(seed, patches[0]);
      StayInStepIff(Node(seed, patches[0]), patches[1..]);
    }
  }

  lemma {:induction false} NullFreeIsCompatible(t: Json, p: Json)
    requires NullFree(p)
    ensures Compatible(t, p)
    decreases p
  {
    if p.Object? && t.Object? {
      forall k | k in p.fields ensures Compatible(Field(t, k), p.fields[k]) {
        NullFreeIsCompatible(Field(t, k), p.fields[k]);
      }
    }
  }

  /** Patches that delete nothing, as the built-in analyses emit them, always keep them in step. */
  lemma {:induction false} NullFreeStreams(seed: Json, patches: seq<Json>)
    requires forall i :: 0 <= i < |patches| ==> !patches[i].Null? && NullFree(patches[i])
    ensures InStep(seed, Some(seed), patches)
    decreases |patches|
  {
    if patches != [] {
      NullFreeIsCompatible(seed, patches[0]);
      OnePatchIff(seed, patches[0]);
      NullFreeStreams(Node(seed, patches[0]), patches[1..]);
    }
  }

  /** A deletion that meets a non-object shows the difference: the node keeps the null. */
  lemma NullUnderNewKey(k: string, d: string)
    ensures var p := Object(map[k := Object(map[d := Null])]);
      && Node(Object(map[]), p) == p
      && Rfc(Object(map[]), p) == Object(map[k := Object(map[])])
      && !Compatible(Object(map[]), p)
  {
    var p := Object(map[k := Object(map[d := Null])]);
    var t := Object(map[]);
    assert p.fields[k].fields[d].Null?;
    assert Rfc(Null, p.fields[k]).fields == map[];
    forall j ensures (j in Node(t, p).fields <==> j in p.fields) && (j in p.fields ==> Node(t, p).fields[j] == p.fields[j]) {
      NodeField(t, p, j);
    }
    SameObject(Node(t, p), p);
    SameObject(Rfc(t, p), Object(map[k := Object(map[])]));
    NodeFollowsRfcIff(t, p);
  }

  // ----- The report store -----------------------------------------------------------------------------------

  datatype Delta = Delta(name: string, patch: Json)

  /** The patches a subscriber to one report receives. */
  function PatchesFor(deltas: seq<Delta>, name: string): seq<Json> {
    if deltas == [] then []
    else
      var last := deltas[|deltas| - 1];
      PatchesFor(deltas[..|deltas| - 1], name) + (if last.name == name then [last.patch] else [])
  }

  function RunNode(seed: Json, patches: seq<Json>): Json {
    if patches == [] then seed else Node(RunNode(seed, patches[..|patches| - 1]), patches[|patches| - 1])
  }

  lemma PatchesForSplit(deltas: seq<Delta>, name: string, i: nat)
    requires i < |deltas|
    ensures PatchesFor(deltas[..i + 1], name) ==
      PatchesFor(deltas[..i], name) + (if deltas[i].name == name then [deltas[i].patch] else [])
  {
    assert deltas[..i + 1][..i] == deltas[..i];
  }

  lemma RunNodeAppend(seed: Json, patches: seq<Json>, p: Json)
    ensures RunNode(seed, patches + [p]) == Node(RunNode(seed, patches), p)
  {
    assert (patches + [p])[..|patches|] == patches;
  }

  function Snapshot(data: map<string, Json>, name: string): Json {
    if name in data then data[name] else Null
  }

  /** The report's snapshot is its old one run through its patches. */
  ghost predicate HoldsOne(before: map<string, Json>, now: map<string, Json>, patches: seq<Json>, name: string) {
    && (name in now <==> name in before || patches != [])
    && Snapshot(now, name) == RunNode(Snapshot(before, name), patches)
  }

  ghost predicate Holds(before: map<string, Json>, now: map<string, Json>, deltas: seq<Delta>) {
    forall name :: HoldsOne(before, now, PatchesFor(deltas, name), name)
  }

  lemma OneMorePatch(before: map<string, Json>, now: map<string, Json>, patches: seq<Json>, d: Delta, name: string)
    requires HoldsOne(before, now, patches, name)
    ensures HoldsOne(before, now[d.name := Node(Snapshot(now, d.name), d.patch)],
                     patches + (if d.name == name then [d.patch] else []), name)
  {
    RunNodeAppend(Snapshot(before, name), patches, d.patch);
    assert patches + [] == patches;
  }

  lemma OneMoreDelta(before: map<string, Json>, now: map<string, Json>, deltas: seq<Delta>, i: nat)
    requires i < |deltas| && Holds(before, now, deltas[..i])
    ensures Holds(before, now[deltas[i].name := Node(Snapshot(now, deltas[i].name), deltas[i].patch)], deltas[..i + 1])
  {
    var next, more := now[deltas[i].name := Node(Snapshot(now, deltas[i].name), deltas[i].patch)], deltas[..i + 1];
    forall name ensures HoldsOne(before, next, PatchesFor(more, name), name) {
      PatchesForSplit(deltas, name, i);
      OneMorePatch(before, now, PatchesFor(deltas[..i], name), deltas[i], name);
    }
  }

  /** `apply_deltas` on the held snapshots. */
  method ApplyDeltas(before: map<string, Json>, deltas: seq<Delta>) returns (now: map<string, Json>)
    ensures Holds(before, now, deltas)
  {
    now := before;
    for i := 0 to |deltas|
      invariant Holds(before, now, deltas[..i])
    {
      var d := deltas[i];
      OneMoreDelta(before, now, deltas, i);
      var slot := MergePatchNode(Snapshot(now, d.name), d.patch);
      now := now[d.name := slot];
    }
    assert deltas[..|deltas|] == deltas;
  }
}
