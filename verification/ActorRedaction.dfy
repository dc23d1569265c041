/** Withholding from an organization's reader whatever metadata names an outside
    actor (lib/activity-log-reach.ts). */
module ActorRedaction {
  import opened MetadataValues

  const WITHHELD := "[withheld]"

  function Redact(heap: Heap, v: Value, depth: nat): Value
    decreases DepthLeft(depth), 0
  {
    if !IsObject(v) then v
    else if depth >= MAX_DEPTH then Text(WITHHELD)
    else match Deref(heap, v)
      case Date(_) => Obj([])
      case Arr(items) => Arr(seq(|items|, i requires 0 <= i < |items| => Redact(heap, items[i], depth + 1)))
      case Obj(fields) => Obj(seq(|fields|, i requires 0 <= i < |fields| => RedactField(heap, fields[i], depth + 1)))
  }

  function RedactField(heap: Heap, field: Field, depth: nat): Field
    decreases DepthLeft(depth), 1
  {
    Field(field.key, if IsActorIdentityKey(field.key) then Text(WITHHELD) else Redact(heap, field.value, depth))
  }

  /** The recursion as it runs, filling a new array or object key by key. */
  method RedactActorMetadata(heap: Heap, v: Value, depth: nat) returns (r: Value)
    ensures r == Redact(heap, v, depth)
    decreases DepthLeft(depth), 0
  {
    if !IsObject(v) { return v; }
    if depth >= MAX_DEPTH { return Text(WITHHELD); }
    match Deref(heap, v)
    case Date(_) =>
      r := Obj([]);
    case Arr(items) =>
      var mapped := RedactItems(heap, items, depth + 1);
      r := Arr(mapped);
    case Obj(fields) =>
      var out := RedactEntries(heap, fields, depth + 1);
      r := Obj(out);
  }

  method RedactItems(heap: Heap, items: seq<Value>, depth: nat) returns (mapped: seq<Value>)
    ensures |mapped| == |items| && forall j :: 0 <= j < |items| ==> mapped[j] == Redact(heap, items[j], depth)
    decreases DepthLeft(depth), 1
  {
    mapped := [];
    for i := 0 to |items|
      invariant |mapped| == i
      invariant forall j :: 0 <= j < i ==> mapped[j] == Redact(heap, items[j], depth)
    {
      var item := RedactActorMetadata(heap, items[i], depth);
      mapped := mapped + [item];
    }
  }

  method RedactEntries(heap: Heap, fields: seq<Field>, depth: nat) returns (out: seq<Field>)
    ensures |out| == |fields| && forall j :: 0 <= j < |fields| ==> out[j] == RedactField(heap, fields[j], depth)
    decreases DepthLeft(depth), 1
  {
    out := [];
    for i := 0 to |fields|
      invariant |out| == i
      invariant forall j :: 0 <= j < i ==> out[j] == RedactField(heap, fields[j], depth)
    {
      if IsActorIdentityKey(fields[i].key) {
        out := out + [Field(fields[i].key, Text(WITHHELD))];
      } else {
        var child := RedactActorMetadata(heap, fields[i].value, depth);
        out := out + [Field(fields[i].key, child)];
      }
    }
  }

  /** Metadata alike but beneath the actor's keys reads the same. */
  lemma {:induction false} RedactHides(h: Heap, k: Heap, v: Value, w: Value, depth: nat)
    requires HeapsAlike(IsActorIdentityKey, h, k) && Alike(IsActorIdentityKey, v, w)
    ensures Redact(h, v, depth) == Redact(k, w, depth)
    decreases DepthLeft(depth)
  {
    if IsObject(v) && depth < MAX_DEPTH {
      var x, y := Deref(h, v), Deref(k, w);
      assert Alike(IsActorIdentityKey, x, y);
      match (x, y)
      case (Arr(xs), Arr(ys)) =>
        forall i | 0 <= i < |xs| ensures Redact(h, xs[i], depth + 1) == Redact(k, ys[i], depth + 1) {
          RedactHides(h, k, xs[i], ys[i], depth + 1);
        }
      case (Obj(fs), Obj(gs)) =>
        forall i | 0 <= i < |fs| ensures RedactField(h, fs[i], depth + 1) == RedactField(k, gs[i], depth + 1) {
          if !IsActorIdentityKey(fs[i].key) {
            RedactHides(h, k, fs[i].value, gs[i].value, depth + 1);
          }
        }
      case _ =>
    }
  }

  /** Redacting what was redacted changes nothing, whatever the references stood for. */
  lemma {:induction false} RedactingAgainChangesNothing(h: Heap, k: Heap, v: Value, depth: nat)
    ensures Redact(k, Redact(h, v, depth), depth) == Redact(h, v, depth)
    decreases DepthLeft(depth)
  {
    if IsObject(v) && depth < MAX_DEPTH {
      var r := Redact(h, v, depth);
      match Deref(h, v)
      case Date(_) =>
      case Arr(items) =>
        forall i | 0 <= i < |items| ensures Redact(k, r.items[i], depth + 1) == r.items[i] {
          RedactingAgainChangesNothing(h, k, items[i], depth + 1);
        }
        assert Redact(k, r, depth).items == r.items;
      case Obj(fields) =>
        forall i | 0 <= i < |fields| ensures RedactField(k, r.fields[i], depth + 1) == r.fields[i] {
          assert r.fields[i] == RedactField(h, fields[i], depth + 1);
          if !IsActorIdentityKey(fields[i].key) {
            RedactingAgainChangesNothing(h, k, fields[i].value, depth + 1);
          }
        }
        assert Redact(k, r, depth).fields == r.fields;
    }
  }

  /** Every actor key at any depth reads as withheld. */
  ghost predicate Withholds(v: Value)
    decreases v
  {
    match v
    case Arr(items) => forall i :: 0 <= i < |items| ==> Withholds(items[i])
    case Obj(fields) => forall i :: 0 <= i < |fields| ==>
        (IsActorIdentityKey(fields[i].key) ==> fields[i].value == Text(WITHHELD)) && Withholds(fields[i].value)
    case _ => true
  }

  /** Whatever the graph, the result nests no deeper than the cap and names no actor. */
  lemma {:induction false} RedactBounds(heap: Heap, v: Value, depth: nat)
    ensures Bounded(Redact(heap, v, depth), DepthLeft(depth)) && Withholds(Redact(heap, v, depth))
    decreases DepthLeft(depth)
  {
    if IsObject(v) && depth < MAX_DEPTH {
      match Deref(heap, v)
      case Date(_) =>
      case Arr(items) =>
        forall i | 0 <= i < |items| { RedactBounds(heap, items[i], depth + 1); }
      case Obj(fields) =>
        forall i | 0 <= i < |fields| { RedactBounds(heap, fields[i].value, depth + 1); }
    }
  }

  // ---- What is kept ----

  /** `y` shows `v` with `left` levels to go: a plain value as it is, an array item by item, an object key by key, and
      only what an actor key holds, or what is too deep, withheld. */
  ghost predicate ShowsReader(heap: Heap, v: Value, y: Value, left: nat)
    decreases left, 0
  {
    if !(v.Arr? || v.Obj? || v.Date? || v.Ref?) then y == v
    else if left == 0 then y == Text("[withheld]")
    else ShowsReaderNode(heap, if v.Ref? then heap(v.id) else v, y, left)
  }

  ghost predicate ShowsReaderNode(heap: Heap, node: Node, y: Value, left: nat)
    requires left > 0
    decreases left - 1, 1
  {
    match node
    case Date(_) => y == Obj([])
    case Arr(items) => y.Arr? && |y.items| == |items| && forall k :: 0 <= k < |items| ==> ShowsReader(heap, items[k], y.items[k], left - 1)
    case Obj(fields) =>
      && y.Obj? && |y.fields| == |fields|
      && forall k :: 0 <= k < |fields| ==>
           && y.fields[k].key == fields[k].key
           && if IsActorIdentityKey(fields[k].key) then y.fields[k].value == Text("[withheld]")
              else ShowsReader(heap, fields[k].value, y.fields[k].value, left - 1)
  }

  /** Whatever the graph, everything else is shown. */
  lemma {:induction false} RedactShows(heap: Heap, v: Value, depth: nat)
    ensures ShowsReader(heap, v, Redact(heap, v, depth), DepthLeft(depth))
    decreases DepthLeft(depth), 0
  {
    if IsObject(v) && depth < MAX_DEPTH {
      match Deref(heap, v)
      case Arr(items) =>
        forall k | 0 <= k < |items| { RedactShows(heap, items[k], depth + 1); }
      case Obj(fields) =>
        forall k | 0 <= k < |fields| { RedactShows(heap, fields[k].value, depth + 1); }
      case _ =>
    }
  }

  /** Eight levels of a whole blob. */
  lemma EightLevelsAreRead(heap: Heap, v: Value)
    ensures ShowsReader(heap, v, Redact(heap, v, 0), 8)
  {
    RedactShows(heap, v, 0);
  }

  // ---- Which keys name an actor ----

  lemma {:induction false} SeparatorsOfMore(a: string, b: string)
    ensures WithoutSeparators(a + b) == WithoutSeparators(a) + WithoutSeparators(b)
  {
    if a == "" {
      assert a + b == b;
    } else {
      assert (a + b)[1..] == a[1..] + b;
      SeparatorsOfMore(a[1..], b);
    }
  }

  lemma Normalized(a: string, b: string)
    ensures WithoutSeparators(Lower(a + b)) == WithoutSeparators(Lower(a)) + WithoutSeparators(Lower(b))
  {
    assert Lower(a + b) == Lower(a) + Lower(b);
    SeparatorsOfMore(Lower(a), Lower(b));
  }

  /** Dashes and underscores anywhere in a key make no difference. */
  lemma SeparatorsMakeNoDifference(a: string, b: string, separator: string)
    requires separator == "-" || separator == "_"
    ensures IsActorIdentityKey(a + separator + b) <==> IsActorIdentityKey(a + b)
  {
    Normalized(a + separator, b);
    Normalized(a, separator);
    Normalized(a, b);
    assert Lower(separator) == separator && separator[1..] == "";
    assert WithoutSeparators(separator) == WithoutSeparators(separator[1..]) == "";
    assert WithoutSeparators(Lower(a + separator + b)) == WithoutSeparators(Lower(a + b));
  }

  /** Nor does the case of an ASCII letter. */
  lemma CaseMakesNoDifference(a: string, capital: char, b: string)
    requires 'A' <= capital <= 'Z'
    ensures IsActorIdentityKey(a + [capital] + b) <==> IsActorIdentityKey(a + [(capital as int + 32) as char] + b)
  {
    var small := (capital as int + 32) as char;
    assert Lower(a + [capital] + b) == Lower(a + [small] + b);
  }

  lemma StartingWord(word: string, rest: string)
    requires forall k :: 0 <= k < |word| ==> 'a' <= word[k] <= 'z'
    ensures word <= WithoutSeparators(Lower(word + rest))
  {
    Normalized(word, rest);
    PlainWord(word);
  }

  lemma EndingWord(rest: string, word: string)
    requires forall k :: 0 <= k < |word| ==> 'a' <= word[k] <= 'z'
    ensures EndsWith(WithoutSeparators(Lower(rest + word)), word)
  {
    Normalized(rest, word);
    PlainWord(word);
    var before := WithoutSeparators(Lower(rest));
    assert (before + word)[|before|..] == word;
  }

  /** Whatever follows `actor` or `performedby`, or comes before one of four endings, names an actor. */
  lemma ActorWords(rest: string)
    ensures IsActorIdentityKey("actor" + rest) && IsActorIdentityKey("performedby" + rest)
    ensures IsActorIdentityKey(rest + "byuserid") && IsActorIdentityKey(rest + "byname")
    ensures IsActorIdentityKey(rest + "byemail") && IsActorIdentityKey(rest + "byid")
  {
    StartingWord("actor", rest);
    StartingWord("performedby", rest);
    EndingWord(rest, "byuserid");
    EndingWord(rest, "byname");
    EndingWord(rest, "byemail");
    EndingWord(rest, "byid");
  }

  lemma {:induction false} PlainWord(word: string)
    requires forall k :: 0 <= k < |word| ==> 'a' <= word[k] <= 'z'
    ensures WithoutSeparators(Lower(word)) == word
  {
    if word != "" {
      PlainWord(word[1..]);
      assert Lower(word)[1..] == Lower(word[1..]);
    }
  }

  /** So do ten whole words. */
  lemma IdentityWords()
    ensures IsActorIdentityKey("ip") && IsActorIdentityKey("ipaddress") && IsActorIdentityKey("useragent") && IsActorIdentityKey("useremail")
    ensures IsActorIdentityKey("userid") && IsActorIdentityKey("username") && IsActorIdentityKey("adminid")
    ensures IsActorIdentityKey("adminemail") && IsActorIdentityKey("adminname") && IsActorIdentityKey("byemail")
  {
    PlainWord("ip");
    PlainWord("ipaddress");
    PlainWord("useragent");
    PlainWord("useremail");
    PlainWord("userid");
    PlainWord("username");
    PlainWord("adminid");
    PlainWord("adminemail");
    PlainWord("adminname");
    PlainWord("byemail");
  }
}
