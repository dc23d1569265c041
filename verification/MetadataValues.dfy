/** Audit metadata as the activity log receives it: a graph of arrays and objects,
    shared or cyclic through references, and the keys its redactors look for. */
module MetadataValues {

  datatype Field = Field(key: string, value: Value)

  /** `Ref` names an object reached by identity; an inline array, object or date has an identity of its own. */
  datatype Value =
    | Null
    | Undefined
    | Bool(b: bool)
    | Number(n: real)
    | BigInt(i: int)
    | Text(s: string)
    | Date(iso: string)
    | Arr(items: seq<Value>)
    | Obj(fields: seq<Field>)
    | Ref(id: nat)

  type Node = v: Value | v.Date? || v.Arr? || v.Obj? witness Arr([])

  /** What every reference stands for; nothing keeps it from leading back to itself. */
  type Heap = nat -> Node

  const MAX_DEPTH: nat := 8
  const MAX_ENTRIES: nat := 200

  function LowerChar(c: char): char {
    if 'A' <= c <= 'Z' then c - 'A' + 'a' else c
  }

  function Lower(s: string): (r: string)
    ensures |r| == |s|
  {
    seq(|s|, i requires 0 <= i < |s| => LowerChar(s[i]))
  }

  predicate Contains(s: string, part: string) {
    part <= s || (s != [] && Contains(s[1..], part))
  }

  predicate StartsWith(s: string, prefix: string) { prefix <= s }

  predicate EndsWith(s: string, suffix: string) {
    |suffix| <= |s| && s[|s| - |suffix|..] == suffix
  }

  const SENSITIVE_KEY_PARTS: seq<string> := [
    "password", "token", "secret", "apikey", "api_key", "otp", "pin", "authorization", "credential", "sessionid", "cookie"]

  /** A key whose value never belongs in a trail a person reads. */
  predicate IsSensitiveKey(key: string) {
    exists i :: 0 <= i < |SENSITIVE_KEY_PARTS| && Contains(Lower(key), SENSITIVE_KEY_PARTS[i])
  }

  function WithoutSeparators(s: string): string {
    if s == [] then "" else (if s[0] == '-' || s[0] == '_' then "" else [s[0]]) + WithoutSeparators(s[1..])
  }

  const IDENTITY_EXACT: set<string> := {
    "ip", "ipaddress", "useragent", "useremail", "userid", "username", "adminid", "adminemail", "adminname", "byemail"}

  /** A key that names who did it, or where from. */
  predicate IsActorIdentityKey(key: string) {
    var normalized := WithoutSeparators(Lower(key));
    || normalized in IDENTITY_EXACT
    || StartsWith(normalized, "actor") || StartsWith(normalized, "performedby")
    || EndsWith(normalized, "byuserid") || EndsWith(normalized, "byname") || EndsWith(normalized, "byemail") || EndsWith(normalized, "byid")
  }

  /** Two values alike but for what lies beneath the hidden keys. */
  ghost predicate Alike(hidden: string -> bool, v: Value, w: Value)
    decreases v
  {
    match (v, w)
    case (Arr(xs), Arr(ys)) => |xs| == |ys| && forall i :: 0 <= i < |xs| ==> Alike(hidden, xs[i], ys[i])
    case (Obj(fs), Obj(gs)) =>
      && |fs| == |gs|
      && forall i :: 0 <= i < |fs| ==> fs[i].key == gs[i].key && (hidden(fs[i].key) || Alike(hidden, fs[i].value, gs[i].value))
    case _ => v == w
  }

  ghost predicate HeapsAlike(hidden: string -> bool, h: Heap, k: Heap) {
    forall id: nat :: Alike(hidden, h(id), k(id))
  }

  /** How many levels a walk at this depth may still go down. */
  function DepthLeft(depth: nat): nat {
    if depth <= MAX_DEPTH then MAX_DEPTH - depth else 0
  }

  /** Nesting of at most `n` levels, with no reference or date left to follow. */
  ghost predicate Bounded(v: Value, n: nat)
    decreases v
  {
    match v
    case Arr(items) => n > 0 && forall i :: 0 <= i < |items| ==> Bounded(items[i], n - 1)
    case Obj(fields) => n > 0 && forall i :: 0 <= i < |fields| ==> Bounded(fields[i].value, n - 1)
    case Ref(_) => false
    case Date(_) => false
    case _ => true
  }

  predicate IsObject(v: Value) { v.Arr? || v.Obj? || v.Date? || v.Ref? }

  /** The object a value is. */
  function Deref(heap: Heap, v: Value): Node
    requires IsObject(v)
  {
    if v.Ref? then heap(v.id) else v
  }
}
