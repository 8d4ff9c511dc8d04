/** How `fieldsV1` spells the paths a manager owns, and what follows for the drift pipeline. */
module FieldsV1 {
  import opened Common
  import opened Yaml
  import opened Text
  import opened ListMap
  import opened Ownership

  // ----- the spelling of a segment -----

  function PairText(key: string, value: string): string
  {
    "\"" + key + "\":\"" + value + "\""
  }

  function PairsText(pairs: seq<(string, string)>): string
  {
    if pairs == [] then ""
    else if |pairs| == 1 then PairText(pairs[0].0, pairs[0].1)
    else PairText(pairs[0].0, pairs[0].1) + "," + PairsText(pairs[1..])
  }

  /** `f:` and the name, `i:` and the digits, `k:` and the key fields as a JSON object of strings. */
  function Spelled(seg: Segment): string
  {
    match seg
    case Field(name) => "f:" + name
    case Index(i) => "i:" + NatToString(i)
    case Keyed(pairs) => "k:{" + PairsText(pairs) + "}"
  }

  lemma {:induction false} PairsSnoc(pairs: seq<(string, string)>)
    requires |pairs| > 1
    ensures var n := |pairs| - 1; PairsText(pairs) == PairsText(pairs[..n]) + "," + PairText(pairs[n].0, pairs[n].1)
    decreases |pairs|
  {
    var n := |pairs| - 1;
    var last := PairText(pairs[n].0, pairs[n].1);
    var first := PairText(pairs[0].0, pairs[0].1);
    if n == 1 {
      assert pairs[1..] == [pairs[1]] && pairs[..1] == [pairs[0]];
    } else {
      PairsSnoc(pairs[1..]);
      assert pairs[1..][..n - 1] == pairs[..n][1..];
      CommaChain(first, PairsText(pairs[..n][1..]), last);
    }
  }

  lemma CommaChain(a: string, b: string, c: string)
    ensures a + "," + (b + "," + c) == a + "," + b + "," + c
  {
  }

  lemma {:induction false} KeyPairsAreSpelled(pairs: seq<(string, string)>)
    ensures KeyPairs(pairs) == PairsText(pairs)
    decreases |pairs|
  {
    if pairs != [] {
      var n := |pairs| - 1;
      KeyPairsAreSpelled(pairs[..n]);
      QuotedLast(KeyPairs(pairs[..n]) + (if n > 0 then "," else ""), pairs[n].0, pairs[n].1);
      if n > 0 {
        PairsSnoc(pairs);
      } else {
        assert "" + "" + PairText(pairs[0].0, pairs[0].1) == PairText(pairs[0].0, pairs[0].1);
      }
    }
  }

  lemma QuotedLast(before: string, key: string, value: string)
    ensures before + "\"" + key + "\":\"" + value + "\"" == before + PairText(key, value)
  {
  }

  lemma SpelledIsCandidate(seg: Segment)
    ensures CandidateKey(seg) == Spelled(seg)
  {
    if seg.Keyed? {
      KeyPairsAreSpelled(seg.keys);
    }
  }

  // ----- no two segments are spelled alike -----

  /** No quote in the key fields' names and texts; the source does not escape them. */
  predicate QuoteFree(seg: Segment)
  {
    seg.Keyed? ==> forall i :: 0 <= i < |seg.keys| ==> '"' !in seg.keys[i].0 && '"' !in seg.keys[i].1
  }

  predicate QuoteFreePath(path: Path)
  {
    forall i :: 0 <= i < |path| ==> QuoteFree(path[i])
  }

  lemma CutInside(t: string, b: string, s: string, c: char)
    requires t == b + [c] + s && c !in b
    ensures forall i :: 0 <= i < |b| ==> t[i] != c
  {
    assert forall i :: 0 <= i < |b| ==> t[i] == b[i];
  }

  /** Cutting at the first `c`. */
  lemma CutAt(a: string, r: string, b: string, s: string, c: char)
    requires c !in a && c !in b && a + [c] + r == b + [c] + s
    ensures a == b && r == s
  {
    var t := a + [c] + r;
    CutInside(t, a, r, c);
    CutInside(t, b, s, c);
    assert t[|a|] == c && t[|b|] == c;
    assert t[..|a|] == a && t[..|b|] == b;
    assert t[|a| + 1..] == r && t[|b| + 1..] == s;
  }

  lemma PairCuts(k: string, v: string, r: string, k': string, v': string, r': string)
    requires '"' !in k && '"' !in v && '"' !in k' && '"' !in v'
    requires PairText(k, v) + r == PairText(k', v') + r'
    ensures k == k' && v == v' && r == r'
  {
    var a, b := PairText(k, v) + r, PairText(k', v') + r';
    assert a[1..] == k + ['"'] + (":\"" + v + "\"" + r);
    assert b[1..] == k' + ['"'] + (":\"" + v' + "\"" + r');
    CutAt(k, ":\"" + v + "\"" + r, k', ":\"" + v' + "\"" + r', '"');
    assert (":\"" + v + "\"" + r)[2..] == v + ['"'] + r;
    assert (":\"" + v' + "\"" + r')[2..] == v' + ['"'] + r';
    CutAt(v, r, v', r', '"');
  }

  /** What follows the first pair. */
  function Behind(pairs: seq<(string, string)>): string
    requires pairs != []
  {
    if |pairs| == 1 then "" else "," + PairsText(pairs[1..])
  }

  lemma PairsFront(pairs: seq<(string, string)>)
    requires pairs != []
    ensures PairsText(pairs) == PairText(pairs[0].0, pairs[0].1) + Behind(pairs) && PairsText(pairs)[0] == '"'
  {
  }

  lemma {:induction false} PairsTextInjective(p: seq<(string, string)>, q: seq<(string, string)>)
    requires QuoteFree(Keyed(p)) && QuoteFree(Keyed(q)) && PairsText(p) == PairsText(q)
    ensures p == q
    decreases |p|
  {
    if p != [] && q != [] {
      PairsFront(p);
      PairsFront(q);
      PairCuts(p[0].0, p[0].1, Behind(p), q[0].0, q[0].1, Behind(q));
      if |p| > 1 && |q| > 1 {
        assert Behind(p)[1..] == PairsText(p[1..]) && Behind(q)[1..] == PairsText(q[1..]);
        PairsTextInjective(p[1..], q[1..]);
      }
      assert p == [p[0]] + p[1..] && q == [q[0]] + q[1..];
    } else if p != [] {
      PairsFront(p);
    } else if q != [] {
      PairsFront(q);
    }
  }

  lemma SpelledInjective(a: Segment, b: Segment)
    requires QuoteFree(a) && QuoteFree(b)
    ensures Spelled(a) == Spelled(b) <==> a == b
  {
    if Spelled(a) == Spelled(b) {
      var s, t := Spelled(a), Spelled(b);
      assert s[0] == t[0];
      match (a, b) {
        case (Field(x), Field(y)) => assert s[2..] == x && t[2..] == y;
        case (Index(i), Index(j)) =>
          assert s[2..] == NatToString(i) && t[2..] == NatToString(j);
          DigitsRoundTrip(i);
          DigitsRoundTrip(j);
        case (Keyed(p), Keyed(q)) =>
          assert s[3..|s| - 1] == PairsText(p) && t[3..|t| - 1] == PairsText(q);
          PairsTextInjective(p, q);
        case _ =>
      }
    }
  }

  // ----- the tree of one owned path -----

  function TreeOf(path: Path): Value
  {
    if path == [] then Mapping([]) else Mapping([Entry(Spelled(path[0]), TreeOf(path[1..]))])
  }

  /** One of the two paths goes on where the other ends; a manager of the root alone owns only
      the root. */
  predicate Agree(owned: Path, path: Path)
  {
    path <= owned || (owned != [] && owned <= path)
  }

  /** A manager listed with one path owns that path, what it leads through, and all below. */
  lemma {:induction false} TreeOwnsIff(owned: Path, path: Path)
    requires QuoteFreePath(owned) && QuoteFreePath(path)
    ensures Owns(TreeOf(owned), path) <==> Agree(owned, path)
    decreases |path|
  {
    if owned != [] && path != [] {
      var es := [Entry(Spelled(owned[0]), TreeOf(owned[1..]))];
      SpelledIsCandidate(path[0]);
      SpelledInjective(owned[0], path[0]);
      assert es[1..] == [];
      TreeOwnsIff(owned[1..], path[1..]);
      if owned[0] == path[0] {
        AgreeTail(owned, path);
      }
    }
  }

  lemma AgreeTail(owned: Path, path: Path)
    requires owned != [] && path != [] && owned[0] == path[0]
    ensures Agree(owned, path) <==> owned[1..] == [] || Agree(owned[1..], path[1..])
  {
    var x, y := owned[1..], path[1..];
    assert owned == [owned[0]] + x && path == [path[0]] + y;
  }

  /** In any tree: a node owns a path if and only if it has an entry with the spelling of the
      first segment whose value is no mapping, an empty one, or owns the rest. */
  lemma OwnsByEntry(es: seq<Entry>, seg: Segment, rest: Path)
    requires DistinctKeys(es)
    ensures Owns(Mapping(es), [seg] + rest) <==>
            exists i :: 0 <= i < |es| && es[i].key == Spelled(seg) &&
              (!es[i].value.Mapping? || es[i].value == Mapping([]) || Owns(es[i].value, rest))
  {
    SpelledIsCandidate(seg);
    assert ([seg] + rest)[1..] == rest;
    forall i | 0 <= i < |es| ensures Lookup(es, es[i].key) == Some(es[i].value) {
      LookupAt(es, i);
    }
  }

  // ----- the managers of a live object -----

  /** What one entry of `managedFields` says: a manager and its path, or nothing usable. */
  type Claim = Option<(string, Path)>

  predicate Says(item: Value, claim: Claim)
  {
    match claim
    case Some((manager, owned)) =>
      Get(item, "manager") == Some(String(manager)) && Get(item, "fieldsV1") == Some(TreeOf(owned))
    case None => Get(item, "fieldsV1") == None || Get(item, "manager") == None
  }

  /** `metadata.managedFields` of the object lists these claims. */
  ghost predicate ListsClaims(live: Value, claims: seq<Claim>)
  {
    match Get(live, "metadata")
    case Some(meta) => (
      match Get(meta, "managedFields")
      case Some(Sequence(items)) => |items| == |claims| && forall i :: 0 <= i < |items| ==> Says(items[i], claims[i])
      case _ => false
    )
    case None => false
  }

  predicate ClaimsPath(claim: Claim, path: Path)
  {
    claim.Some? && Agree(claim.value.1, path)
  }

  predicate FirstClaim(claims: seq<Claim>, path: Path, i: int)
  {
    0 <= i < |claims| && ClaimsPath(claims[i], path) && forall j :: 0 <= j < i ==> !ClaimsPath(claims[j], path)
  }

  predicate QuoteFreeClaims(claims: seq<Claim>)
  {
    forall i :: 0 <= i < |claims| && claims[i].Some? ==> QuoteFreePath(claims[i].value.1)
  }

  lemma {:induction false} EntriesOfClaims(items: seq<Value>, claims: seq<Claim>, path: Path)
    requires |items| == |claims| && (forall i :: 0 <= i < |items| ==> Says(items[i], claims[i]))
    requires QuoteFreeClaims(claims) && QuoteFreePath(path)
    ensures forall i :: FirstClaim(claims, path, i) ==>
            FirstOwner(ManagerEntries(items), path) == Some(claims[i].value.0)
    ensures (forall i :: 0 <= i < |claims| ==> !ClaimsPath(claims[i], path)) ==>
              FirstOwner(ManagerEntries(items), path) == None
    decreases |items|
  {
    if items != [] {
      EntriesOfClaims(items[1..], claims[1..], path);
      OneEntry(items[0], claims[0], ManagerEntries(items[1..]), path);
      forall i | FirstClaim(claims, path, i) && i > 0 ensures FirstClaim(claims[1..], path, i - 1) {
        assert forall j :: 0 <= j < i - 1 ==> claims[1..][j] == claims[j + 1];
      }
    }
  }

  lemma OneEntry(item: Value, claim: Claim, rest: seq<(string, Value)>, path: Path)
    requires Says(item, claim) && (claim.Some? ==> QuoteFreePath(claim.value.1)) && QuoteFreePath(path)
    ensures FirstOwner((match ManagerEntry(item) case Some(e) => [e] case None => []) + rest, path) ==
            if ClaimsPath(claim, path) then Some(claim.value.0) else FirstOwner(rest, path)
  {
    match claim
    case Some((manager, owned)) =>
      TreeOwnsIff(owned, path);
      assert ManagerEntry(item) == Some((manager, TreeOf(owned)));
      assert ([(manager, TreeOf(owned))] + rest)[1..] == rest;
    case None =>
      assert ManagerEntry(item) == None;
      assert [] + rest == rest;
  }

  /** The owner of a path is the first listed manager whose path agrees with it. */
  lemma OwnerIsFirstClaim(live: Value, claims: seq<Claim>, path: Path)
    requires ListsClaims(live, claims) && QuoteFreeClaims(claims) && QuoteFreePath(path)
    ensures forall i :: FirstClaim(claims, path, i) ==> OwnerOf(path, live) == Some(claims[i].value.0)
    ensures (forall i :: 0 <= i < |claims| ==> !ClaimsPath(claims[i], path)) ==> OwnerOf(path, live) == None
  {
    EntriesOfClaims(Get(Get(live, "metadata").value, "managedFields").value.items, claims, path);
  }

  lemma {:induction false} MembersOfClaims(items: seq<Value>, claims: seq<Claim>, e: (string, Value))
    requires |items| == |claims| && forall i :: 0 <= i < |items| ==> Says(items[i], claims[i])
    ensures e in ManagerEntries(items) <==>
            exists i :: 0 <= i < |claims| && claims[i].Some? && e == (claims[i].value.0, TreeOf(claims[i].value.1))
    decreases |items|
  {
    if items != [] {
      MembersOfClaims(items[1..], claims[1..], e);
      assert ManagerEntry(items[0]) ==
             match claims[0] case Some((m, owned)) => Some((m, TreeOf(owned))) case None => None;
      assert forall i :: 0 < i < |claims| ==> claims[i] == claims[1..][i - 1];
    }
  }

  /** Whether one of some managers owns the path, whoever else does and in whatever order. */
  lemma OwnedByAnyIff(live: Value, claims: seq<Claim>, path: Path, allowed: seq<string>)
    requires ListsClaims(live, claims) && QuoteFreeClaims(claims) && QuoteFreePath(path)
    ensures PathOwnedByAny(path, live, allowed) <==>
            exists i :: 0 <= i < |claims| && ClaimsPath(claims[i], path) && claims[i].value.0 in allowed
  {
    var items := Get(Get(live, "metadata").value, "managedFields").value.items;
    if PathOwnedByAny(path, live, allowed) {
      var e :| e in ManagedFields(live) && e.0 in allowed && Owns(e.1, path);
      MembersOfClaims(items, claims, e);
      var i :| 0 <= i < |claims| && claims[i].Some? && e == (claims[i].value.0, TreeOf(claims[i].value.1));
      TreeOwnsIff(claims[i].value.1, path);
    }
    forall i | 0 <= i < |claims| && ClaimsPath(claims[i], path) && claims[i].value.0 in allowed
      ensures PathOwnedByAny(path, live, allowed)
    {
      var e := (claims[i].value.0, TreeOf(claims[i].value.1));
      MembersOfClaims(items, claims, e);
      TreeOwnsIff(claims[i].value.1, path);
      assert e in ManagedFields(live);
    }
  }
}
