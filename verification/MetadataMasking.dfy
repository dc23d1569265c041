/** Masking secrets and bounding the shape of audit metadata (lib/activity-log.ts). */
module MetadataMasking {
  import opened Numbers
  import opened MetadataValues
  import Decimal

  const METADATA_MASK := "***MASKED***"

  function IntText(i: int): string {
    if i < 0 then ['-'] + Decimal.Text(-i) else Decimal.Text(i)
  }

  function MoreItems(count: nat): seq<Value> {
    if count > MAX_ENTRIES then [Text("[" + Decimal.Text(count - MAX_ENTRIES) + " more]")] else []
  }

  /** `out[key] = value`: an own key keeps its place, a new one goes last. */
  function Put(fields: seq<Field>, key: string, value: Value): (r: seq<Field>)
    ensures |r| <= |fields| + 1
    ensures forall f :: f in r ==> f in fields || f == Field(key, value)
  {
    if fields == [] then [Field(key, value)]
    else if fields[0].key == key then [Field(key, value)] + fields[1..]
    else [fields[0]] + Put(fields[1..], key, value)
  }

  function WithMoreKeys(fields: seq<Field>, count: nat): (r: seq<Field>)
    ensures |r| <= |fields| + 1
    ensures forall f :: f in r ==> f in fields || (f.key == "…" && f.value.Text?)
  {
    if count > MAX_ENTRIES then Put(fields, "…", Text("[" + Decimal.Text(count - MAX_ENTRIES) + " more keys]")) else fields
  }

  /** The masked value, and the references seen once it has been walked. */
  function Mask(heap: Heap, v: Value, depth: nat, seen: set<nat>): (Value, set<nat>)
    decreases DepthLeft(depth), 0
  {
    if v.BigInt? then (Text(IntText(v.i)), seen)
    else if !IsObject(v) then (v, seen)
    else if depth >= MAX_DEPTH then (Text("[truncated]"), seen)
    else if v.Ref? && v.id in seen then (Text("[circular]"), seen)
    else MaskNode(heap, Deref(heap, v), depth + 1, if v.Ref? then seen + {v.id} else seen)
  }

  /** An object with its contents masked one level down. */
  function MaskNode(heap: Heap, node: Node, depth: nat, seen: set<nat>): (Value, set<nat>)
    decreases DepthLeft(depth), Size(node) + 1
  {
    match node
    case Date(iso) => (Text(iso), seen)
    case Arr(items) =>
      var (kept, after) := MaskItems(heap, items[..Min(|items|, MAX_ENTRIES)], depth, seen);
      (Arr(kept + MoreItems(|items|)), after)
    case Obj(fields) =>
      var (kept, after) := MaskFields(heap, fields[..Min(|fields|, MAX_ENTRIES)], depth, seen);
      (Obj(WithMoreKeys(kept, |fields|)), after)
  }

  function Size(node: Node): nat {
    match node
    case Date(_) => 0
    case Arr(items) => |items|
    case Obj(fields) => |fields|
  }

  function MaskItems(heap: Heap, items: seq<Value>, depth: nat, seen: set<nat>): (r: (seq<Value>, set<nat>))
    ensures |r.0| == |items|
    decreases DepthLeft(depth), |items|
  {
    if items == [] then ([], seen)
    else
      var (before, between) := MaskItems(heap, items[..|items| - 1], depth, seen);
      var (last, after) := Mask(heap, items[|items| - 1], depth, between);
      (before + [last], after)
  }

  function MaskFields(heap: Heap, fields: seq<Field>, depth: nat, seen: set<nat>): (r: (seq<Field>, set<nat>))
    ensures |r.0| == |fields|
    decreases DepthLeft(depth), |fields|
  {
    if fields == [] then ([], seen)
    else
      var (before, between) := MaskFields(heap, fields[..|fields| - 1], depth, seen);
      var field := fields[|fields| - 1];
      if IsSensitiveKey(field.key) then (before + [Field(field.key, Text(METADATA_MASK))], between)
      else
        var (last, after) := Mask(heap, field.value, depth, between);
        (before + [Field(field.key, last)], after)
  }

  /** One walk over a metadata graph: `seen` is shared by every level of it. */
  class Masker {
    const heap: Heap
    var seen: set<nat>

    constructor (heap: Heap)
      ensures this.heap == heap && seen == {}
    {
      this.heap := heap;
      seen := {};
    }

    method MaskValue(v: Value, depth: nat) returns (r: Value)
      modifies this
      ensures (r, seen) == Mask(heap, v, depth, old(seen))
      decreases DepthLeft(depth), 0
    {
      if v.BigInt? { return Text(IntText(v.i)); }
      if !IsObject(v) { return v; }
      if depth >= MAX_DEPTH { return Text("[truncated]"); }
      if v.Ref? {
        if v.id in seen { return Text("[circular]"); }
        seen := seen + {v.id};
      }
      match Deref(heap, v)
      case Date(iso) =>
        r := Text(iso);
      case Arr(items) =>
        var kept := MaskKept(items[..Min(|items|, MAX_ENTRIES)], depth + 1);
        r := Arr(kept + MoreItems(|items|));
      case Obj(fields) =>
        var out := MaskOwn(fields[..Min(|fields|, MAX_ENTRIES)], depth + 1);
        r := Obj(WithMoreKeys(out, |fields|));
    }

    method MaskKept(items: seq<Value>, depth: nat) returns (kept: seq<Value>)
      modifies this
      ensures (kept, seen) == MaskItems(heap, items, depth, old(seen))
      decreases DepthLeft(depth), 1
    {
      kept := [];
      for i := 0 to |items|
        invariant (kept, seen) == MaskItems(heap, items[..i], depth, old(seen))
      {
        assert items[..i + 1][..i] == items[..i];
        var item := MaskValue(items[i], depth);
        kept := kept + [item];
      }
      assert items[..|items|] == items;
    }

    method MaskOwn(fields: seq<Field>, depth: nat) returns (out: seq<Field>)
      modifies this
      ensures (out, seen) == MaskFields(heap, fields, depth, old(seen))
      decreases DepthLeft(depth), 1
    {
      out := [];
      for i := 0 to |fields|
        invariant (out, seen) == MaskFields(heap, fields[..i], depth, old(seen))
      {
        assert fields[..i + 1][..i] == fields[..i];
        if IsSensitiveKey(fields[i].key) {
          out := out + [Field(fields[i].key, Text(METADATA_MASK))];
        } else {
          var value := MaskValue(fields[i].value, depth);
          out := out + [Field(fields[i].key, value)];
        }
      }
      assert fields[..|fields|] == fields;
    }
  }

  // ---- What a reader can learn ----

  /** Metadata alike but beneath sensitive keys masks to the same value, having seen the same references. */
  lemma {:induction false} MaskHides(h: Heap, k: Heap, v: Value, w: Value, depth: nat, seen: set<nat>)
    requires HeapsAlike(IsSensitiveKey, h, k) && Alike(IsSensitiveKey, v, w)
    ensures Mask(h, v, depth, seen) == Mask(k, w, depth, seen)
    decreases DepthLeft(depth), 0
  {
    if IsObject(v) && depth < MAX_DEPTH && !(v.Ref? && v.id in seen) {
      AlikeBehindReferences(h, k, v, w);
      var walked := if v.Ref? then seen + {v.id} else seen;
      NodeHides(h, k, Deref(h, v), Deref(k, w), depth + 1, walked);
      assert Mask(h, v, depth, seen) == MaskNode(h, Deref(h, v), depth + 1, walked);
      assert Mask(k, w, depth, seen) == MaskNode(k, Deref(k, w), depth + 1, walked);
    } else {
      NotWalkedTheSame(h, k, v, w, depth, seen);
    }
  }

  lemma AlikeBehindReferences(h: Heap, k: Heap, v: Value, w: Value)
    requires HeapsAlike(IsSensitiveKey, h, k) && Alike(IsSensitiveKey, v, w) && IsObject(v)
    ensures IsObject(w) && (v.Ref? <==> w.Ref?) && (v.Ref? ==> v == w)
    ensures Alike(IsSensitiveKey, Deref(h, v), Deref(k, w))
  {
  }

  lemma NotWalkedTheSame(h: Heap, k: Heap, v: Value, w: Value, depth: nat, seen: set<nat>)
    requires Alike(IsSensitiveKey, v, w)
    requires !IsObject(v) || depth >= MAX_DEPTH || (v.Ref? && v.id in seen)
    ensures Mask(h, v, depth, seen) == Mask(k, w, depth, seen)
  {
    assert v.Arr? || v.Obj? || v == w;
  }

  lemma {:induction false} NodeHides(h: Heap, k: Heap, x: Node, y: Node, depth: nat, seen: set<nat>)
    requires HeapsAlike(IsSensitiveKey, h, k) && Alike(IsSensitiveKey, x, y)
    ensures MaskNode(h, x, depth, seen) == MaskNode(k, y, depth, seen)
    decreases DepthLeft(depth), Size(x) + 1
  {
    match x
    case Arr(xs) =>
      ItemsHide(h, k, xs[..Min(|xs|, MAX_ENTRIES)], y.items[..Min(|xs|, MAX_ENTRIES)], depth, seen);
    case Obj(fs) =>
      FieldsHide(h, k, fs[..Min(|fs|, MAX_ENTRIES)], y.fields[..Min(|fs|, MAX_ENTRIES)], depth, seen);
    case _ =>
  }

  lemma {:induction false} ItemsHide(h: Heap, k: Heap, xs: seq<Value>, ys: seq<Value>, depth: nat, seen: set<nat>)
    requires HeapsAlike(IsSensitiveKey, h, k) && Alike(IsSensitiveKey, Arr(xs), Arr(ys))
    ensures MaskItems(h, xs, depth, seen) == MaskItems(k, ys, depth, seen)
    decreases DepthLeft(depth), |xs|
  {
    if xs != [] {
      var n := |xs| - 1;
      ItemsHide(h, k, xs[..n], ys[..n], depth, seen);
      MaskHides(h, k, xs[n], ys[n], depth, MaskItems(h, xs[..n], depth, seen).1);
    }
  }

  lemma {:induction false} FieldsHide(h: Heap, k: Heap, fs: seq<Field>, gs: seq<Field>, depth: nat, seen: set<nat>)
    requires HeapsAlike(IsSensitiveKey, h, k) && Alike(IsSensitiveKey, Obj(fs), Obj(gs))
    ensures MaskFields(h, fs, depth, seen) == MaskFields(k, gs, depth, seen)
    decreases DepthLeft(depth), |fs|
  {
    if fs != [] {
      var n := |fs| - 1;
      AlikeFields(fs, gs);
      FieldsHide(h, k, fs[..n], gs[..n], depth, seen);
      if !IsSensitiveKey(fs[n].key) {
        MaskHides(h, k, fs[n].value, gs[n].value, depth, MaskFields(h, fs[..n], depth, seen).1);
      }
    }
  }

  lemma AlikeFields(fs: seq<Field>, gs: seq<Field>)
    requires fs != [] && Alike(IsSensitiveKey, Obj(fs), Obj(gs))
    ensures var n := |fs| - 1;
            && |gs| == |fs| && fs[n].key == gs[n].key
            && Alike(IsSensitiveKey, Obj(fs[..n]), Obj(gs[..n]))
            && (IsSensitiveKey(fs[n].key) || Alike(IsSensitiveKey, fs[n].value, gs[n].value))
  {
  }

  /** No array or object keeps more than the cap and its marker, and every sensitive key reads as masked. */
  ghost predicate Clean(v: Value)
    decreases v
  {
    match v
    case Arr(items) => |items| <= MAX_ENTRIES + 1 && forall i :: 0 <= i < |items| ==> Clean(items[i])
    case Obj(fields) =>
      && |fields| <= MAX_ENTRIES + 1
      && forall i :: 0 <= i < |fields| ==>
           (IsSensitiveKey(fields[i].key) ==> fields[i].value == Text(METADATA_MASK)) && Clean(fields[i].value)
    case BigInt(_) => false
    case _ => true
  }

  /** Whatever the graph, the result nests no deeper than the cap, is no wider than the cap, and shows no secret. */
  lemma {:induction false} MaskBounds(heap: Heap, v: Value, depth: nat, seen: set<nat>)
    ensures Bounded(Mask(heap, v, depth, seen).0, DepthLeft(depth)) && Clean(Mask(heap, v, depth, seen).0)
    decreases DepthLeft(depth), 0
  {
    if IsObject(v) && depth < MAX_DEPTH && !(v.Ref? && v.id in seen) {
      NodeBounded(heap, Deref(heap, v), depth + 1, if v.Ref? then seen + {v.id} else seen);
    }
  }

  lemma {:induction false} NodeBounded(heap: Heap, node: Node, depth: nat, seen: set<nat>)
    ensures Bounded(MaskNode(heap, node, depth, seen).0, DepthLeft(depth) + 1) && Clean(MaskNode(heap, node, depth, seen).0)
    decreases DepthLeft(depth), Size(node) + 1
  {
    match node
    case Date(_) =>
    case Arr(items) =>
      ItemsBounded(heap, items[..Min(|items|, MAX_ENTRIES)], depth, seen);
    case Obj(fields) =>
      FieldsBounded(heap, fields[..Min(|fields|, MAX_ENTRIES)], depth, seen);
      EllipsisIsNotSensitive();
      var out := MaskNode(heap, node, depth, seen).0.fields;
      forall i | 0 <= i < |out|
        ensures Bounded(out[i].value, DepthLeft(depth)) && Clean(out[i].value)
        ensures IsSensitiveKey(out[i].key) ==> out[i].value == Text(METADATA_MASK)
      {
        assert out[i] in out;
      }
  }

  lemma {:induction false} ContainsNeedsRoom(s: string, part: string)
    ensures Contains(s, part) ==> |part| <= |s|
  {
    if s != [] { ContainsNeedsRoom(s[1..], part); }
  }

  lemma EllipsisIsNotSensitive()
    ensures !IsSensitiveKey("…")
  {
    forall i | 0 <= i < |SENSITIVE_KEY_PARTS| ensures !Contains(Lower("…"), SENSITIVE_KEY_PARTS[i]) {
      ContainsNeedsRoom(Lower("…"), SENSITIVE_KEY_PARTS[i]);
    }
  }

  lemma {:induction false} ItemsBounded(heap: Heap, items: seq<Value>, depth: nat, seen: set<nat>)
    ensures forall x :: x in MaskItems(heap, items, depth, seen).0 ==> Bounded(x, DepthLeft(depth)) && Clean(x)
    decreases DepthLeft(depth), |items|
  {
    if items != [] {
      var n := |items| - 1;
      ItemsBounded(heap, items[..n], depth, seen);
      MaskBounds(heap, items[n], depth, MaskItems(heap, items[..n], depth, seen).1);
    }
  }

  lemma {:induction false} FieldsBounded(heap: Heap, fields: seq<Field>, depth: nat, seen: set<nat>)
    ensures forall f :: f in MaskFields(heap, fields, depth, seen).0 ==>
              Bounded(f.value, DepthLeft(depth)) && Clean(f.value) && (IsSensitiveKey(f.key) ==> f.value == Text(METADATA_MASK))
    decreases DepthLeft(depth), |fields|
  {
    if fields != [] {
      var n := |fields| - 1;
      FieldsBounded(heap, fields[..n], depth, seen);
      if !IsSensitiveKey(fields[n].key) {
        MaskBounds(heap, fields[n].value, depth, MaskFields(heap, fields[..n], depth, seen).1);
      }
    }
  }
}
