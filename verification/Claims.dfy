/** The rule both halves of the migration planner share: accounts claim keys (an
    organization and city, or a branch) for their warehouse, the first claim on
    a key nobody holds yet is planned, and a claim that disagrees with the
    holder or with the first claim is objected to. */
module Claims {
  import opened InsertionMaps
  import opened Options

  datatype Claim<K> = Claim(key: K, warehouseId: nat, username: string)

  datatype Objection<K> =
    | HeldElsewhere(key: K, holder: nat, wanted: nat)
    | Disputed(first: string, second: string, key: K)

  function FirstOn<K(==)>(claims: seq<Claim<K>>, key: K): (r: Option<Claim<K>>)
    ensures r.Some? <==> key in Keys(claims)
    ensures r.Some? ==> r.value in claims && r.value.key == key
  {
    assert claims != [] ==> claims == [claims[0]] + claims[1..];
    if claims == [] then None
    else if claims[0].key == key then Some(claims[0])
    else FirstOn(claims[1..], key)
  }

  function Keys<K(==)>(claims: seq<Claim<K>>): set<K> {
    set c | c in claims :: c.key
  }

  lemma {:induction false} FirstOnOfMore<K>(claims: seq<Claim<K>>, more: seq<Claim<K>>, key: K)
    ensures FirstOn(claims + more, key) == if key in Keys(claims) then FirstOn(claims, key) else FirstOn(more, key)
  {
    if claims == [] {
      assert claims + more == more;
    } else {
      assert (claims + more)[1..] == claims[1..] + more;
      FirstOnOfMore(claims[1..], more, key);
      assert claims == [claims[0]] + claims[1..];
    }
  }

  /** What gets planned: the first claim on every claimed key that has no holder yet. */
  function Planned<K(==)>(existing: map<K, nat>, claims: seq<Claim<K>>): (r: map<K, Claim<K>>)
    ensures r.Keys == Keys(claims) - existing.Keys
  {
    map k | k in Keys(claims) && k !in existing ::
      FirstOn(claims, k).value
  }

  /** Why one of these claims cannot stand: its key's holder, or the first claim on it, is another warehouse. */
  function ObjectionsTo<K(==)>(existing: map<K, nat>, claims: seq<Claim<K>>, c: Claim<K>): seq<Objection<K>> {
    if c.key in existing then
      if existing[c.key] != c.warehouseId then [HeldElsewhere(c.key, existing[c.key], c.warehouseId)] else []
    else match FirstOn(claims, c.key)
      case None => []
      case Some(first) => if first.warehouseId != c.warehouseId then [Disputed(first.username, c.username, c.key)] else []
  }

  function Objections<K(==)>(existing: map<K, nat>, claims: seq<Claim<K>>): seq<Objection<K>>
    decreases |claims|
  {
    if claims == [] then []
    else
      var before, last := claims[..|claims| - 1], claims[|claims| - 1];
      Objections(existing, before) + ObjectionsTo(existing, claims, last)
  }

  /** Every claim on a key names one warehouse, and it is the holder when there is one. */
  ghost predicate Agreed<K(!new)>(existing: map<K, nat>, claims: seq<Claim<K>>) {
    && (forall c, d :: c in claims && d in claims && c.key == d.key ==> c.warehouseId == d.warehouseId)
    && (forall c :: c in claims && c.key in existing ==> existing[c.key] == c.warehouseId)
  }

  lemma KeysOfMore<K>(claims: seq<Claim<K>>, c: Claim<K>)
    ensures Keys(claims + [c]) == Keys(claims) + {c.key}
  {
    assert forall d :: d in claims + [c] <==> d in claims || d == c;
  }

  lemma FirstOnOfOneMore<K>(claims: seq<Claim<K>>, c: Claim<K>, key: K)
    ensures FirstOn(claims + [c], key) ==
            if key in Keys(claims) then FirstOn(claims, key) else if key == c.key then Some(c) else None
  {
    FirstOnOfMore(claims, [c], key);
    assert [c][1..] == [];
  }

  /** The objections to one more claim look only at the claims before it. */
  lemma ObjectionsOfOneMore<K>(existing: map<K, nat>, claims: seq<Claim<K>>, c: Claim<K>)
    ensures Objections(existing, claims + [c]) == Objections(existing, claims) + ObjectionsTo(existing, claims, c)
  {
    assert (claims + [c])[..|claims|] == claims;
    FirstOnOfOneMore(claims, c, c.key);
  }

  /** One more claim is planned only on a key nobody holds and nobody claimed before. */
  lemma PlannedOfOneMore<K>(existing: map<K, nat>, claims: seq<Claim<K>>, c: Claim<K>)
    ensures Planned(existing, claims + [c]) ==
            if c.key in existing || c.key in Keys(claims) then Planned(existing, claims)
            else Planned(existing, claims)[c.key := c]
  {
    var more := Planned(existing, claims + [c]);
    KeysOfMore(claims, c);
    forall k | k in more ensures more[k] == if k in Keys(claims) then FirstOn(claims, k).value else c {
      FirstOnOfOneMore(claims, c, k);
    }
  }

  /** Taking one more claim against what is planned so far, as the planner's loops do. */
  lemma TakeClaim<K>(existing: map<K, nat>, claims: seq<Claim<K>>, c: Claim<K>, planned: map<K, Claim<K>>)
    requires planned == Planned(existing, claims)
    ensures Objections(existing, claims + [c]) == Objections(existing, claims)
            + if c.key in existing && existing[c.key] != c.warehouseId then [HeldElsewhere(c.key, existing[c.key], c.warehouseId)]
              else if c.key in planned && planned[c.key].warehouseId != c.warehouseId then [Disputed(planned[c.key].username, c.username, c.key)]
              else []
    ensures Planned(existing, claims + [c]) ==
            if c.key !in existing && c.key !in planned then planned[c.key := c] else planned
  {
    ObjectionsOfOneMore(existing, claims, c);
    PlannedOfOneMore(existing, claims, c);
  }

  /** One account's claims on `keys` for its warehouse. */
  function ClaimsOn<K>(keys: seq<K>, warehouseId: nat, username: string): (r: seq<Claim<K>>)
    ensures |r| == |keys|
    ensures forall i :: 0 <= i < |r| ==> r[i] == Claim(keys[i], warehouseId, username)
  {
    seq(|keys|, i requires 0 <= i < |keys| => Claim(keys[i], warehouseId, username))
  }

  /** One claim of the planner's inner loop, against what is planned so far. */
  method TakeKey<K(==)>(key: K, warehouseId: nat, username: string, existing: map<K, nat>,
                        sofar: InsertionMap<K, Claim<K>>, objections: seq<Objection<K>>, ghost before: seq<Claim<K>>)
    returns (planned: InsertionMap<K, Claim<K>>, found: seq<Objection<K>>)
    requires sofar.Valid() && sofar.at == Planned(existing, before)
    requires objections == Objections(existing, before)
    ensures planned.Valid() && planned.at == Planned(existing, before + [Claim(key, warehouseId, username)])
    ensures found == Objections(existing, before + [Claim(key, warehouseId, username)])
  {
    planned, found := sofar, objections;
    TakeClaim(existing, before, Claim(key, warehouseId, username), sofar.at);
    if key in existing && existing[key] != warehouseId {
      found := found + [HeldElsewhere(key, existing[key], warehouseId)];
    } else if key in planned.at && planned.at[key].warehouseId != warehouseId {
      found := found + [Disputed(planned.at[key].username, username, key)];
    } else if key !in existing && key !in planned.at {
      planned := planned.Set(key, Claim(key, warehouseId, username));
    }
  }

  lemma OwnOfOneMore<K>(before: seq<Claim<K>>, own: seq<Claim<K>>, j: nat)
    requires j < |own|
    ensures before + own[..j + 1] == before + own[..j] + [own[j]]
  {
  }

  /** The inner loop of the planner: one account's keys, claimed one by one. */
  method TakeClaims<K(==)>(keys: seq<K>, warehouseId: nat, username: string, existing: map<K, nat>,
                           sofar: InsertionMap<K, Claim<K>>, objections: seq<Objection<K>>, ghost before: seq<Claim<K>>)
    returns (planned: InsertionMap<K, Claim<K>>, found: seq<Objection<K>>)
    requires sofar.Valid() && sofar.at == Planned(existing, before)
    requires objections == Objections(existing, before)
    ensures planned.Valid() && planned.at == Planned(existing, before + ClaimsOn(keys, warehouseId, username))
    ensures found == Objections(existing, before + ClaimsOn(keys, warehouseId, username))
  {
    planned, found := sofar, objections;
    ghost var own := ClaimsOn(keys, warehouseId, username);
    assert before + own[..0] == before;
    for j := 0 to |keys|
      invariant planned.Valid()
      invariant planned.at == Planned(existing, before + own[..j])
      invariant found == Objections(existing, before + own[..j])
    {
      OwnOfOneMore(before, own, j);
      planned, found := TakeKey(keys[j], warehouseId, username, existing, planned, found, before + own[..j]);
    }
    assert own[..|keys|] == own;
  }

  lemma AgreedOfOneMore<K(!new)>(existing: map<K, nat>, claims: seq<Claim<K>>, c: Claim<K>)
    ensures Agreed(existing, claims + [c]) <==> Agreed(existing, claims) && ObjectionsTo(existing, claims, c) == []
  {
    var more := claims + [c];
    assert forall d :: d in more <==> d in claims || d == c;
    if Agreed(existing, claims) && ObjectionsTo(existing, claims, c) == [] {
      forall d | d in claims && d.key == c.key ensures d.warehouseId == c.warehouseId {
        assert c.key in Keys(claims);
      }
    }
  }

  /** No objection is raised exactly when nothing disagrees. */
  lemma {:induction false} NoObjectionMeansAgreed<K(!new)>(existing: map<K, nat>, claims: seq<Claim<K>>)
    ensures Objections(existing, claims) == [] <==> Agreed(existing, claims)
    decreases |claims|
  {
    if claims != [] {
      var before, last := claims[..|claims| - 1], claims[|claims| - 1];
      assert claims == before + [last];
      NoObjectionMeansAgreed(existing, before);
      ObjectionsOfOneMore(existing, before, last);
      AgreedOfOneMore(existing, before, last);
    }
  }
}
