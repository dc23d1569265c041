/** What masking keeps: everything but secrets, repeats, depth and width, whatever graph the metadata is. */
module MetadataKept {
  import opened MetadataMasking
  import opened MetadataValues
  import Decimal

  // ---- Which keys are sensitive ----

  /** The same letter but for the case of an ASCII capital. */
  predicate ReadsAs(c: char, lower: char) { c == lower || ('A' <= c <= 'Z' && c as int + 32 == lower as int) }

  predicate ReadsAt(s: string, i: nat, word: string) {
    i + |word| <= |s| && forall k :: 0 <= k < |word| ==> ReadsAs(s[i + k], word[k])
  }

  predicate OccursAt(s: string, i: nat, part: string) { i + |part| <= |s| && s[i..i + |part|] == part }

  lemma OccursOneOn(s: string, i: nat, part: string)
    requires s != []
    ensures OccursAt(s[1..], i, part) <==> OccursAt(s, i + 1, part)
  {
    if i + |part| <= |s| - 1 { assert s[1..][i..i + |part|] == s[i + 1..i + 1 + |part|]; }
  }

  lemma OccursInFront(s: string, part: string)
    ensures OccursAt(s, 0, part) <==> part <= s
  {
  }

  lemma {:induction false} ContainsExactly(s: string, part: string)
    ensures Contains(s, part) <==> exists i: nat :: OccursAt(s, i, part)
  {
    OccursInFront(s, part);
    if s != [] {
      ContainsExactly(s[1..], part);
      forall i: nat { OccursOneOn(s, i, part); }
      if i: nat :| OccursAt(s, i, part) {
        assert i == 0 || OccursAt(s[1..], i - 1, part);
      }
    }
  }

  /** A key with one of the words anywhere in it, in any case, is sensitive. */
  lemma WordsAreSensitive(key: string, i: nat, word: string)
    requires word in {"password", "token", "secret", "apikey", "api_key", "otp", "pin", "authorization", "credential", "sessionid", "cookie"}
    requires ReadsAt(key, i, word)
    ensures IsSensitiveKey(key)
  {
    ReadsAtLower(key, i, word);
    ContainsExactly(Lower(key), word);
    assert OccursAt(Lower(key), i, word);
    assert word == SENSITIVE_KEY_PARTS[0] || word == SENSITIVE_KEY_PARTS[1] || word == SENSITIVE_KEY_PARTS[2] || word == SENSITIVE_KEY_PARTS[3]
        || word == SENSITIVE_KEY_PARTS[4] || word == SENSITIVE_KEY_PARTS[5] || word == SENSITIVE_KEY_PARTS[6] || word == SENSITIVE_KEY_PARTS[7]
        || word == SENSITIVE_KEY_PARTS[8] || word == SENSITIVE_KEY_PARTS[9] || word == SENSITIVE_KEY_PARTS[10];
  }

  lemma ReadsAtLower(key: string, i: nat, word: string)
    requires ReadsAt(key, i, word) && forall k :: 0 <= k < |word| ==> !('A' <= word[k] <= 'Z')
    ensures i + |word| <= |key| && Lower(key)[i..i + |word|] == word
  {
    forall k | 0 <= k < |word| ensures Lower(key)[i + k] == word[k] {
      assert ReadsAs(key[i + k], word[k]);
    }
  }

  /** Only such keys are: a sensitive key reads as one of the words somewhere. */
  lemma SensitiveKeysHoldAWord(key: string)
    requires IsSensitiveKey(key)
    ensures exists i: nat, w :: 0 <= w < |SENSITIVE_KEY_PARTS| && ReadsAt(key, i, SENSITIVE_KEY_PARTS[w])
  {
    var w :| 0 <= w < |SENSITIVE_KEY_PARTS| && Contains(Lower(key), SENSITIVE_KEY_PARTS[w]);
    var word := SENSITIVE_KEY_PARTS[w];
    ContainsExactly(Lower(key), word);
    var i: nat :| OccursAt(Lower(key), i, word);
    LowerReadsAt(key, i, word);
  }

  lemma LowerReadsAt(key: string, i: nat, word: string)
    requires OccursAt(Lower(key), i, word)
    ensures ReadsAt(key, i, word)
  {
    forall k | 0 <= k < |word| ensures ReadsAs(key[i + k], word[k]) {
      assert Lower(key)[i..i + |word|][k] == Lower(key)[i + k];
    }
  }

  // ---- What is shown of a value ----

  /** `y` shows `v`, walked with `left` levels to go: a plain value as it is, a big integer as its digits, an object or
      array key by key and item by item up to the width, with what is left out counted, and only secrets, references
      already met and what is too deep replaced. */
  ghost predicate Shows(heap: Heap, v: Value, y: Value, left: nat)
    decreases left, 0
  {
    match v
    case BigInt(i) => ShowsDigits(i, y)
    case Date(_) => if left == 0 then y == Text("[truncated]") else ShowsNode(heap, v, y, left)
    case Arr(_) => if left == 0 then y == Text("[truncated]") else ShowsNode(heap, v, y, left)
    case Obj(_) => if left == 0 then y == Text("[truncated]") else ShowsNode(heap, v, y, left)
    case Ref(id) => if left == 0 then y == Text("[truncated]") else y == Text("[circular]") || ShowsNode(heap, heap(id), y, left)
    case _ => y == v
  }

  ghost predicate ShowsDigits(i: int, y: Value) {
    y.Text? && (i >= 0 ==> y.s == Decimal.Text(i)) && (i < 0 ==> y.s == ['-'] + Decimal.Text(-i))
  }

  ghost predicate ShowsNode(heap: Heap, node: Node, y: Value, left: nat)
    requires left > 0
    decreases left - 1, 1
  {
    match node
    case Date(iso) => y == Text(iso)
    case Arr(items) =>
      && y.Arr?
      && |y.items| == (if |items| <= 200 then |items| else 201)
      && (forall k :: 0 <= k < |items| && k < 200 ==> Shows(heap, items[k], y.items[k], left - 1))
      && (|items| > 200 ==> y.items[200] == Text("[" + Decimal.Text(|items| - 200) + " more]"))
    case Obj(fields) =>
      && y.Obj?
      && |y.fields| >= (if |fields| <= 200 then |fields| else 200)
      && (forall k :: 0 <= k < |fields| && k < 200 ==>
            && y.fields[k].key == fields[k].key
            && (IsSensitiveKey(fields[k].key) ==> y.fields[k].value == Text("***MASKED***"))
            && (!IsSensitiveKey(fields[k].key) && !(|fields| > 200 && fields[k].key == "…") ==>
                  Shows(heap, fields[k].value, y.fields[k].value, left - 1)))
      && (|fields| <= 200 ==> |y.fields| == |fields|)
      && (|fields| > 200 ==> Field("…", Text("[" + Decimal.Text(|fields| - 200) + " more keys]")) in y.fields)
      && (|fields| > 200 && (forall k :: 0 <= k < 200 ==> fields[k].key != "…") ==> |y.fields| == 201)
  }

  lemma {:induction false} PutMeans(fields: seq<Field>, key: string, value: Value)
    ensures var r := Put(fields, key, value);
            && |fields| <= |r|
            && Field(key, value) in r
            && (forall k :: 0 <= k < |fields| ==> r[k].key == fields[k].key)
            && (forall k :: 0 <= k < |fields| && fields[k].key != key ==> r[k] == fields[k])
            && ((forall k :: 0 <= k < |fields| ==> fields[k].key != key) ==> |r| == |fields| + 1)
  {
    if fields != [] && fields[0].key != key {
      PutMeans(fields[1..], key, value);
      assert forall k :: 0 <= k < |fields| - 1 ==> fields[1..][k] == fields[k + 1];
    }
  }

  /** Masking shows every graph, at any depth and after any walk. */
  lemma {:induction false} MaskShows(heap: Heap, v: Value, depth: nat, seen: set<nat>)
    ensures Shows(heap, v, Mask(heap, v, depth, seen).0, DepthLeft(depth))
    decreases DepthLeft(depth), 0
  {
    if IsObject(v) && depth < MAX_DEPTH && !(v.Ref? && v.id in seen) {
      var walked := if v.Ref? then seen + {v.id} else seen;
      var left, y := DepthLeft(depth), MaskNode(heap, Deref(heap, v), depth + 1, walked).0;
      assert left == DepthLeft(depth + 1) + 1;
      NodeShows(heap, Deref(heap, v), depth + 1, walked);
      assert ShowsNode(heap, Deref(heap, v), y, left);
      WalkedShows(heap, v, y, left);
      WalksItsNode(heap, v, depth, seen);
    } else {
      UnwalkedShows(heap, v, depth, seen);
    }
  }

  lemma WalksItsNode(heap: Heap, v: Value, depth: nat, seen: set<nat>)
    requires IsObject(v) && depth < MAX_DEPTH && !(v.Ref? && v.id in seen)
    ensures Mask(heap, v, depth, seen) == MaskNode(heap, Deref(heap, v), depth + 1, if v.Ref? then seen + {v.id} else seen)
  {
  }

  lemma WalkedShows(heap: Heap, v: Value, y: Value, left: nat)
    requires IsObject(v) && left > 0 && ShowsNode(heap, Deref(heap, v), y, left)
    ensures Shows(heap, v, y, left)
  {
  }

  lemma UnwalkedShows(heap: Heap, v: Value, depth: nat, seen: set<nat>)
    requires !IsObject(v) || depth >= MAX_DEPTH || (v.Ref? && v.id in seen)
    ensures Shows(heap, v, Mask(heap, v, depth, seen).0, DepthLeft(depth))
  {
  }

  /** The marker of an object with too many keys goes last, or in the place of a key that reads like it. */
  lemma ManyKeysShow(heap: Heap, fields: seq<Field>, out: seq<Field>, left: nat)
    requires left > 0 && |fields| > 200 && |out| == 200
    requires forall k :: 0 <= k < 200 ==>
               && out[k].key == fields[k].key
               && (IsSensitiveKey(fields[k].key) ==> out[k].value == Text("***MASKED***"))
               && (!IsSensitiveKey(fields[k].key) ==> Shows(heap, fields[k].value, out[k].value, left - 1))
    ensures ShowsNode(heap, Obj(fields), Obj(Put(out, "…", Text("[" + Decimal.Text(|fields| - 200) + " more keys]"))), left)
  {
    PutMeans(out, "…", Text("[" + Decimal.Text(|fields| - 200) + " more keys]"));
    EllipsisIsNotSensitive();
  }

  lemma {:induction false} NodeShows(heap: Heap, node: Node, depth: nat, seen: set<nat>)
    requires depth >= 1
    ensures ShowsNode(heap, node, MaskNode(heap, node, depth, seen).0, DepthLeft(depth) + 1)
    decreases DepthLeft(depth), Size(node) + 2
  {
    match node
    case Date(_) =>
    case Arr(items) => ArrayShows(heap, items, depth, seen);
    case Obj(fields) => ObjectShows(heap, fields, depth, seen);
  }

  lemma {:induction false} ArrayShows(heap: Heap, items: seq<Value>, depth: nat, seen: set<nat>)
    requires depth >= 1
    ensures ShowsNode(heap, Arr(items), MaskNode(heap, Arr(items), depth, seen).0, DepthLeft(depth) + 1)
    decreases DepthLeft(depth), |items| + 1
  {
    ItemsShow(heap, items[..if |items| <= 200 then |items| else 200], depth, seen);
  }

  lemma {:induction false} ObjectShows(heap: Heap, fields: seq<Field>, depth: nat, seen: set<nat>)
    requires depth >= 1
    ensures ShowsNode(heap, Obj(fields), MaskNode(heap, Obj(fields), depth, seen).0, DepthLeft(depth) + 1)
    decreases DepthLeft(depth), |fields| + 1
  {
    var left := DepthLeft(depth) + 1;
    MaskedKeys(heap, fields, depth, seen);
    if |fields| <= 200 {
      FieldsShow(heap, fields, depth, seen);
      FewKeysShow(heap, fields, MaskFields(heap, fields, depth, seen).0, left);
    } else {
      FieldsShow(heap, fields[..200], depth, seen);
      ManyKeysShow(heap, fields, MaskFields(heap, fields[..200], depth, seen).0, left);
    }
  }

  lemma MaskedKeys(heap: Heap, fields: seq<Field>, depth: nat, seen: set<nat>)
    ensures |fields| <= 200 ==> MaskNode(heap, Obj(fields), depth, seen).0 == Obj(MaskFields(heap, fields, depth, seen).0)
    ensures |fields| > 200 ==>
              MaskNode(heap, Obj(fields), depth, seen).0
              == Obj(Put(MaskFields(heap, fields[..200], depth, seen).0, "…", Text("[" + Decimal.Text(|fields| - 200) + " more keys]")))
  {
    assert fields[..|fields|] == fields;
  }

  lemma FewKeysShow(heap: Heap, fields: seq<Field>, out: seq<Field>, left: nat)
    requires left > 0 && |out| == |fields| <= 200
    requires forall k :: 0 <= k < |fields| ==>
               && out[k].key == fields[k].key
               && (IsSensitiveKey(fields[k].key) ==> out[k].value == Text("***MASKED***"))
               && (!IsSensitiveKey(fields[k].key) ==> Shows(heap, fields[k].value, out[k].value, left - 1))
    ensures ShowsNode(heap, Obj(fields), Obj(out), left)
  {
  }

  lemma {:induction false} ItemsShow(heap: Heap, items: seq<Value>, depth: nat, seen: set<nat>)
    ensures var out := MaskItems(heap, items, depth, seen).0;
            forall k :: 0 <= k < |items| ==> Shows(heap, items[k], out[k], DepthLeft(depth))
    decreases DepthLeft(depth), |items|
  {
    if items != [] {
      var n := |items| - 1;
      ItemsShow(heap, items[..n], depth, seen);
      MaskShows(heap, items[n], depth, MaskItems(heap, items[..n], depth, seen).1);
    }
  }

  lemma {:induction false} FieldsShow(heap: Heap, fields: seq<Field>, depth: nat, seen: set<nat>)
    ensures var out := MaskFields(heap, fields, depth, seen).0;
            forall k :: 0 <= k < |fields| ==>
              && out[k].key == fields[k].key
              && (IsSensitiveKey(fields[k].key) ==> out[k].value == Text("***MASKED***"))
              && (!IsSensitiveKey(fields[k].key) ==> Shows(heap, fields[k].value, out[k].value, DepthLeft(depth)))
    decreases DepthLeft(depth), |fields|
  {
    if fields != [] {
      var n := |fields| - 1;
      FieldsShow(heap, fields[..n], depth, seen);
      if !IsSensitiveKey(fields[n].key) {
        MaskShows(heap, fields[n].value, depth, MaskFields(heap, fields[..n], depth, seen).1);
      }
    }
  }

  // ---- References ----

  /** Walking only adds to what has been met, and meets the reference it walks. */
  lemma {:induction false} SeenGrows(heap: Heap, v: Value, depth: nat, seen: set<nat>)
    ensures seen <= Mask(heap, v, depth, seen).1
    ensures v.Ref? && depth < MAX_DEPTH ==> v.id in Mask(heap, v, depth, seen).1
    decreases DepthLeft(depth), 0
  {
    if IsObject(v) && depth < MAX_DEPTH && !(v.Ref? && v.id in seen) {
      var node, walked := Deref(heap, v), if v.Ref? then seen + {v.id} else seen;
      if node.Arr? { SeenGrowsOverItems(heap, node.items[..if |node.items| <= 200 then |node.items| else 200], depth + 1, walked); }
      if node.Obj? { SeenGrowsOverFields(heap, node.fields[..if |node.fields| <= 200 then |node.fields| else 200], depth + 1, walked); }
    }
  }

  lemma {:induction false} SeenGrowsOverItems(heap: Heap, items: seq<Value>, depth: nat, seen: set<nat>)
    ensures seen <= MaskItems(heap, items, depth, seen).1
    decreases DepthLeft(depth), |items|
  {
    if items != [] {
      var n := |items| - 1;
      SeenGrowsOverItems(heap, items[..n], depth, seen);
      SeenGrows(heap, items[n], depth, MaskItems(heap, items[..n], depth, seen).1);
    }
  }

  lemma {:induction false} SeenGrowsOverFields(heap: Heap, fields: seq<Field>, depth: nat, seen: set<nat>)
    ensures seen <= MaskFields(heap, fields, depth, seen).1
    decreases DepthLeft(depth), |fields|
  {
    if fields != [] {
      var n := |fields| - 1;
      SeenGrowsOverFields(heap, fields[..n], depth, seen);
      if !IsSensitiveKey(fields[n].key) {
        SeenGrows(heap, fields[n].value, depth, MaskFields(heap, fields[..n], depth, seen).1);
      }
    }
  }

  /** A reference is walked the first time it is met and reads as circular after that. */
  lemma ReferencesAreWalkedOnce(heap: Heap, id: nat, depth: nat, seen: set<nat>)
    requires depth < MAX_DEPTH
    ensures id in seen ==> Mask(heap, Ref(id), depth, seen).0 == Text("[circular]")
    ensures id !in seen ==> ShowsNode(heap, heap(id), Mask(heap, Ref(id), depth, seen).0, DepthLeft(depth))
  {
    if id !in seen { NodeShows(heap, heap(id), depth + 1, seen + {id}); }
  }

  /** Of two places in an array or an object that hold one reference the later reads as circular. */
  lemma {:induction false} SecondItemIsCircular(heap: Heap, items: seq<Value>, depth: nat, seen: set<nat>, j: nat, k: nat)
    requires j < k < |items| && items[j].Ref? && items[k] == items[j] && depth < MAX_DEPTH
    ensures MaskItems(heap, items, depth, seen).0[k] == Text("[circular]")
    decreases |items|
  {
    var n := |items| - 1;
    if k < n {
      SecondItemIsCircular(heap, items[..n], depth, seen, j, k);
    } else {
      MetByItems(heap, items[..n], depth, seen, j);
    }
  }

  lemma {:induction false} MetByItems(heap: Heap, items: seq<Value>, depth: nat, seen: set<nat>, j: nat)
    requires j < |items| && items[j].Ref? && depth < MAX_DEPTH
    ensures items[j].id in MaskItems(heap, items, depth, seen).1
    decreases |items|
  {
    var n := |items| - 1;
    SeenGrows(heap, items[n], depth, MaskItems(heap, items[..n], depth, seen).1);
    if j < n { MetByItems(heap, items[..n], depth, seen, j); }
  }

  lemma {:induction false} SecondFieldIsCircular(heap: Heap, fields: seq<Field>, depth: nat, seen: set<nat>, j: nat, k: nat)
    requires j < k < |fields| && fields[j].value.Ref? && fields[k].value == fields[j].value && depth < MAX_DEPTH
    requires !IsSensitiveKey(fields[j].key) && !IsSensitiveKey(fields[k].key)
    ensures MaskFields(heap, fields, depth, seen).0[k].value == Text("[circular]")
    decreases |fields|
  {
    var n := |fields| - 1;
    if k < n {
      SecondFieldIsCircular(heap, fields[..n], depth, seen, j, k);
    } else {
      MetByFields(heap, fields[..n], depth, seen, j);
    }
  }

  lemma {:induction false} MetByFields(heap: Heap, fields: seq<Field>, depth: nat, seen: set<nat>, j: nat)
    requires j < |fields| && fields[j].value.Ref? && !IsSensitiveKey(fields[j].key) && depth < MAX_DEPTH
    ensures fields[j].value.id in MaskFields(heap, fields, depth, seen).1
    decreases |fields|
  {
    var n := |fields| - 1;
    var between := MaskFields(heap, fields[..n], depth, seen).1;
    SeenGrows(heap, fields[n].value, depth, between);
    assert MaskFields(heap, fields, depth, seen).1 == if IsSensitiveKey(fields[n].key) then between else Mask(heap, fields[n].value, depth, between).1;
    if j < n { MetByFields(heap, fields[..n], depth, seen, j); }
  }

  // ---- What is left as it is ----

  /** Inline throughout, without secrets, at most `left` levels deep and 200 entries wide. */
  ghost predicate Harmless(v: Value, left: nat)
    decreases v
  {
    match v
    case Arr(items) => left > 0 && |items| <= 200 && forall i :: 0 <= i < |items| ==> Harmless(items[i], left - 1)
    case Obj(fields) =>
      left > 0 && |fields| <= 200
      && forall i :: 0 <= i < |fields| ==> !IsSensitiveKey(fields[i].key) && Harmless(fields[i].value, left - 1)
    case BigInt(_) => false
    case Date(_) => false
    case Ref(_) => false
    case _ => true
  }

  /** A harmless value masks to itself, and meets no reference. */
  lemma {:induction false} HarmlessIsLeftAlone(heap: Heap, v: Value, depth: nat, seen: set<nat>)
    requires Harmless(v, DepthLeft(depth))
    ensures Mask(heap, v, depth, seen) == (v, seen)
    decreases DepthLeft(depth), 0
  {
    match v
    case Arr(items) =>
      assert items[..|items|] == items && items + [] == items;
      HarmlessItems(heap, items, depth + 1, seen);
    case Obj(fields) =>
      assert fields[..|fields|] == fields;
      HarmlessFields(heap, fields, depth + 1, seen);
    case _ =>
  }

  lemma {:induction false} HarmlessItems(heap: Heap, items: seq<Value>, depth: nat, seen: set<nat>)
    requires forall i :: 0 <= i < |items| ==> Harmless(items[i], DepthLeft(depth))
    ensures MaskItems(heap, items, depth, seen) == (items, seen)
    decreases DepthLeft(depth), |items|
  {
    if items != [] {
      var n := |items| - 1;
      HarmlessItems(heap, items[..n], depth, seen);
      HarmlessIsLeftAlone(heap, items[n], depth, seen);
      assert items == items[..n] + [items[n]];
    }
  }

  lemma {:induction false} HarmlessFields(heap: Heap, fields: seq<Field>, depth: nat, seen: set<nat>)
    requires forall i :: 0 <= i < |fields| ==> !IsSensitiveKey(fields[i].key) && Harmless(fields[i].value, DepthLeft(depth))
    ensures MaskFields(heap, fields, depth, seen) == (fields, seen)
    decreases DepthLeft(depth), |fields|
  {
    if fields != [] {
      var n := |fields| - 1;
      HarmlessFields(heap, fields[..n], depth, seen);
      HarmlessIsLeftAlone(heap, fields[n].value, depth, seen);
      assert fields == fields[..n] + [fields[n]];
    }
  }

  /** Of a whole blob eight levels are shown, and a harmless one of at most eight is left as it is. */
  lemma EightLevelsAreShown(heap: Heap, v: Value)
    ensures Shows(heap, v, Mask(heap, v, 0, {}).0, 8)
    ensures Harmless(v, 8) ==> Mask(heap, v, 0, {}).0 == v
  {
    MaskShows(heap, v, 0, {});
    if Harmless(v, 8) { HarmlessIsLeftAlone(heap, v, 0, {}); }
  }
}
