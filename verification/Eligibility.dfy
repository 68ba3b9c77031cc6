/**
 * The relational checks of isEligibilityStatusView and hasExactKeys
 * (packages/api-client/src/eligibility.ts), for any finite set of disclosure keys.
 */
module Eligibility {
  import opened Sorting
  import opened Wrappers

  datatype Disclosure = Disclosure(key: string, version: string, hash: string)

  datatype Consent = Consent(policyVersion: string, fingerprint: string, key: string, version: string, hash: string)

  /** The fields the relational checks read, the others having passed the checks of their shape. */
  datatype View = View(policyVersion: string, fingerprint: string, jurisdiction: string, age: string, kyc: string,
                       disclosures: seq<Disclosure>, consents: seq<Consent>, missing: seq<string>, canProceed: bool)

  // Sorted lists of strings.

  predicate Leq(a: string, b: string) {
    a == [] || (b != [] && (a[0] < b[0] || (a[0] == b[0] && Leq(a[1..], b[1..]))))
  }

  lemma {:induction false} LeqTotal(a: string, b: string)
    ensures Leq(a, b) || Leq(b, a)
    ensures Leq(a, b) && Leq(b, a) ==> a == b
  {
    if a != [] && b != [] {
      LeqTotal(a[1..], b[1..]);
      assert a == [a[0]] + a[1..] && b == [b[0]] + b[1..];
    }
  }

  lemma {:induction false} LeqTransitive(a: string, b: string, c: string)
    requires Leq(a, b) && Leq(b, c)
    ensures Leq(a, c)
  {
    if a != [] && a[0] == b[0] == c[0] {
      LeqTransitive(a[1..], b[1..], c[1..]);
    }
  }

  function Less(a: string, b: string): bool { !Leq(b, a) }

  lemma StringsAreOrdered()
    ensures Order(Less)
    ensures forall m: multiset<string> :: Comparable(Less, m)
  {
    forall a, b ensures Less(a, b) ==> !Less(b, a)
      ensures a != b ==> Less(a, b) || Less(b, a)
    {
      LeqTotal(a, b);
    }
    forall a, b, c | Leq(a, b) && Leq(b, c) ensures Leq(a, c) {
      LeqTransitive(a, b, c);
    }
  }

  // Lists as sets.

  function Elems(s: seq<string>): set<string> { set x <- s }

  /** A list has as many elements as its set exactly when none is repeated. */
  lemma {:induction false} SizeTellsDistinct(s: seq<string>)
    ensures |Elems(s)| <= |s|
    ensures |Elems(s)| == |s| <==> Distinct(s)
    decreases |s|
  {
    if s != [] {
      var front, last := s[..|s| - 1], s[|s| - 1];
      SizeTellsDistinct(front);
      assert s == front + [last];
      assert Elems(s) == Elems(front) + {last};
    }
  }

  lemma {:induction false} CountOf(s: seq<string>, x: string)
    requires Distinct(s)
    ensures multiset(s)[x] == if x in s then 1 else 0
    decreases |s|
  {
    if s != [] {
      var front, last := s[..|s| - 1], s[|s| - 1];
      CountOf(front, x);
      assert s == front + [last];
    }
  }

  /** The comparison of hasExactKeys and of the missing keys: sort both, compare place by place. */
  predicate SameSorted(a: seq<string>, b: seq<string>) {
    var x, y := Sort(Less, a), Sort(Less, b);
    |x| == |y| && forall i :: 0 <= i < |x| ==> x[i] == y[i]
  }

  /** On lists without repetition, comparing the sorted lists compares the sets. */
  lemma SameSortedIsSameSet(a: seq<string>, b: seq<string>)
    requires Distinct(a) && Distinct(b)
    ensures SameSorted(a, b) <==> Elems(a) == Elems(b)
  {
    StringsAreOrdered();
    SortSorts(Less, a);
    SortSorts(Less, b);
    SortKeepsElements(Less, a);
    SortKeepsElements(Less, b);
    if SameSorted(a, b) {
      assert Sort(Less, a) == Sort(Less, b);
    }
    if Elems(a) == Elems(b) {
      forall x ensures multiset(a)[x] == multiset(b)[x] {
        CountOf(a, x);
        CountOf(b, x);
        assert x in a <==> x in Elems(a);
        assert x in b <==> x in Elems(b);
      }
      OneSortedOrder(Less, Sort(Less, a), Sort(Less, b));
    }
  }

  /** hasExactKeys: an object has exactly the expected keys; neither list repeats one. */
  lemma ExactKeys(actual: seq<string>, expected: seq<string>)
    requires Distinct(actual) && Distinct(expected)
    ensures SameSorted(actual, expected) <==> forall k :: k in actual <==> k in expected
  {
    SameSortedIsSameSet(actual, expected);
    assert forall k :: k in actual <==> k in Elems(actual);
    assert forall k :: k in expected <==> k in Elems(expected);
  }

  // What the contract promises.

  ghost predicate CoversOnce(keys: set<string>, disclosures: seq<Disclosure>) {
    && (forall d <- disclosures :: d.key in keys)
    && (forall k <- keys :: exists d <- disclosures :: d.key == k)
    && (forall i, j :: 0 <= i < j < |disclosures| ==> disclosures[i].key != disclosures[j].key)
  }

  ghost predicate ConsentMatches(v: View, c: Consent) {
    && c.policyVersion == v.policyVersion && c.fingerprint == v.fingerprint
    && exists d <- v.disclosures :: d.key == c.key && d.version == c.version && d.hash == c.hash
  }

  function ConsentKeys(consents: seq<Consent>): set<string> { set c <- consents :: c.key }

  /** The contract: who reads an accepted view may rely on all of this. */
  ghost predicate Contract(keys: set<string>, v: View) {
    && CoversOnce(keys, v.disclosures)
    && (forall c <- v.consents :: ConsentMatches(v, c))
    && (forall i, j :: 0 <= i < j < |v.consents| ==> v.consents[i].key != v.consents[j].key)
    && Distinct(v.missing)
    && ConsentKeys(v.consents) !! Elems(v.missing)
    && ConsentKeys(v.consents) + Elems(v.missing) == keys
    && (v.canProceed <==>
        v.jurisdiction == "ELIGIBLE" && v.age == "ADULT" && v.kyc == "APPROVED" && ConsentKeys(v.consents) == keys)
  }

  function KeysOf(disclosures: seq<Disclosure>): (keys: seq<string>)
    ensures |keys| == |disclosures| && forall i :: 0 <= i < |keys| ==> keys[i] == disclosures[i].key
  {
    seq(|disclosures|, i requires 0 <= i < |disclosures| => disclosures[i].key)
  }

  /** The check of the disclosures: as many as keys, all of them keys, as many different ones as keys. */
  predicate DisclosuresPass(keys: set<string>, disclosures: seq<Disclosure>) {
    && |disclosures| == |keys|
    && (forall d <- disclosures :: d.key in keys)
    && |Elems(KeysOf(disclosures))| == |keys|
  }

  /** Counting is enough: the check passes exactly when each key is disclosed once and nothing else is. */
  lemma CountingCoversOnce(keys: set<string>, disclosures: seq<Disclosure>)
    ensures DisclosuresPass(keys, disclosures) <==> CoversOnce(keys, disclosures)
  {
    var list := KeysOf(disclosures);
    SizeTellsDistinct(list);
    if forall d <- disclosures :: d.key in keys {
      forall k <- list ensures k in keys {
        var i :| 0 <= i < |list| && list[i] == k;
        assert disclosures[i] in disclosures;
      }
      SubsetSize(Elems(list), keys);
    }
    if DisclosuresPass(keys, disclosures) {
      assert Elems(list) == keys;
      forall k <- keys ensures exists d <- disclosures :: d.key == k {
        assert k in Elems(list);
        var i :| 0 <= i < |list| && list[i] == k;
        assert disclosures[i].key == k;
      }
    }
    if CoversOnce(keys, disclosures) {
      forall k <- keys ensures k in list {
        var d :| d in disclosures && d.key == k;
        var i :| 0 <= i < |disclosures| && disclosures[i] == d;
        assert list[i] == k;
      }
      assert Elems(list) == keys;
    }
  }

  // The verifier.

  /** `new Map(disclosures.map(d => [d.key, d]))`: a later entry replaces an earlier one. */
  function ByKey(disclosures: seq<Disclosure>): (m: map<string, Disclosure>)
    ensures forall k :: k in m ==> m[k] in disclosures && m[k].key == k
    ensures forall d <- disclosures :: d.key in m
  {
    if disclosures == [] then map[]
    else ByKey(disclosures[..|disclosures| - 1])[disclosures[|disclosures| - 1].key := disclosures[|disclosures| - 1]]
  }

  /** A consent the loop lets pass. */
  predicate ConsentPasses(v: View, byKey: map<string, Disclosure>, c: Consent) {
    && c.policyVersion == v.policyVersion && c.fingerprint == v.fingerprint
    && c.key in byKey && c.version == byKey[c.key].version && c.hash == byKey[c.key].hash
  }

  lemma PassingIsMatching(v: View, c: Consent)
    requires forall i, j :: 0 <= i < j < |v.disclosures| ==> v.disclosures[i].key != v.disclosures[j].key
    ensures ConsentPasses(v, ByKey(v.disclosures), c) <==> ConsentMatches(v, c)
  {
    var byKey := ByKey(v.disclosures);
    if ConsentMatches(v, c) {
      var d :| d in v.disclosures && d.key == c.key && d.version == c.version && d.hash == c.hash;
      assert byKey[c.key] == d;
    }
  }

  ghost predicate ConsentsFit(v: View, byKey: map<string, Disclosure>, consents: seq<Consent>) {
    && (forall c <- consents :: ConsentPasses(v, byKey, c))
    && (forall i, j :: 0 <= i < j < |consents| ==> consents[i].key != consents[j].key)
  }

  /** The loop over the consents; None when it returns false. */
  method CollectConsents(v: View, byKey: map<string, Disclosure>) returns (consentKeys: Option<set<string>>)
    ensures consentKeys.Some? <==> ConsentsFit(v, byKey, v.consents)
    ensures consentKeys.Some? ==> consentKeys.value == ConsentKeys(v.consents)
  {
    var keys: set<string> := {};
    for n := 0 to |v.consents|
      invariant keys == ConsentKeys(v.consents[..n])
      invariant ConsentsFit(v, byKey, v.consents[..n])
    {
      var consent := v.consents[n];
      assert consent in v.consents;
      if consent.policyVersion != v.policyVersion || consent.fingerprint != v.fingerprint {
        return None;
      }
      if consent.key in keys {
        RepeatedKey(v.consents, n);
        return None;
      }
      if consent.key !in byKey || consent.version != byKey[consent.key].version
         || consent.hash != byKey[consent.key].hash {
        return None;
      }
      NewKey(v.consents, n);
      FitsMore(v, byKey, n);
      keys := keys + {consent.key};
    }
    assert v.consents[..|v.consents|] == v.consents;
    return Some(keys);
  }

  lemma FitsMore(v: View, byKey: map<string, Disclosure>, n: nat)
    requires n < |v.consents| && ConsentsFit(v, byKey, v.consents[..n]) && ConsentPasses(v, byKey, v.consents[n])
    requires forall i :: 0 <= i < n ==> v.consents[i].key != v.consents[n].key
    ensures ConsentsFit(v, byKey, v.consents[..n + 1])
  {
    assert v.consents[..n + 1] == v.consents[..n] + [v.consents[n]];
  }

  lemma RepeatedKey(consents: seq<Consent>, n: nat)
    requires n < |consents| && consents[n].key in ConsentKeys(consents[..n])
    ensures exists i, j :: 0 <= i < j < |consents| && consents[i].key == consents[j].key
  {
    var c :| c in consents[..n] && c.key == consents[n].key;
    var i :| 0 <= i < n && consents[..n][i] == c;
    assert consents[i].key == consents[n].key;
  }

  lemma NewKey(consents: seq<Consent>, n: nat)
    requires n < |consents|
    ensures ConsentKeys(consents[..n + 1]) == ConsentKeys(consents[..n]) + {consents[n].key}
    ensures consents[n].key !in ConsentKeys(consents[..n]) ==>
      forall i :: 0 <= i < n ==> consents[i].key != consents[n].key
  {
    assert consents[..n + 1] == consents[..n] + [consents[n]];
    forall i | 0 <= i < n ensures consents[i].key in ConsentKeys(consents[..n]) {
      assert consents[..n][i] == consents[i];
    }
  }

  /** The keys of the disclosures without a consent, in the order of the disclosures. */
  function Missing(disclosures: seq<Disclosure>, consentKeys: set<string>): seq<string> {
    if disclosures == [] then []
    else Missing(disclosures[..|disclosures| - 1], consentKeys)
         + if disclosures[|disclosures| - 1].key in consentKeys then [] else [disclosures[|disclosures| - 1].key]
  }

  lemma {:induction false} MissingIs(disclosures: seq<Disclosure>, consentKeys: set<string>)
    requires forall i, j :: 0 <= i < j < |disclosures| ==> disclosures[i].key != disclosures[j].key
    ensures Distinct(Missing(disclosures, consentKeys))
    ensures forall k :: k in Missing(disclosures, consentKeys) <==>
      k !in consentKeys && exists d <- disclosures :: d.key == k
    decreases |disclosures|
  {
    if disclosures != [] {
      var front, last := disclosures[..|disclosures| - 1], disclosures[|disclosures| - 1];
      MissingIs(front, consentKeys);
      assert disclosures == front + [last];
    }
  }

  lemma MissingOfCover(keys: set<string>, disclosures: seq<Disclosure>, consentKeys: set<string>)
    requires CoversOnce(keys, disclosures)
    ensures Distinct(Missing(disclosures, consentKeys))
    ensures Elems(Missing(disclosures, consentKeys)) == keys - consentKeys
  {
    MissingIs(disclosures, consentKeys);
    forall k ensures k in Elems(Missing(disclosures, consentKeys)) <==> k in keys - consentKeys {
    }
  }

  lemma ConsentsMatch(v: View)
    requires forall i, j :: 0 <= i < j < |v.disclosures| ==> v.disclosures[i].key != v.disclosures[j].key
    ensures ConsentsFit(v, ByKey(v.disclosures), v.consents) <==>
      (&& (forall c <- v.consents :: ConsentMatches(v, c))
       && (forall i, j :: 0 <= i < j < |v.consents| ==> v.consents[i].key != v.consents[j].key))
  {
    forall c: Consent {
      PassingIsMatching(v, c);
    }
  }

  lemma ConsentKeysWithin(keys: set<string>, v: View)
    requires CoversOnce(keys, v.disclosures) && forall c <- v.consents :: ConsentMatches(v, c)
    ensures ConsentKeys(v.consents) <= keys
  {
    forall k <- ConsentKeys(v.consents) ensures k in keys {
      var c :| c in v.consents && c.key == k;
      var d :| d in v.disclosures && d.key == c.key && d.version == c.version && d.hash == c.hash;
    }
  }

  lemma Partition(keys: set<string>, consented: set<string>, missing: set<string>)
    requires consented <= keys
    ensures missing == keys - consented <==> consented !! missing && consented + missing == keys
    ensures keys - consented == {} <==> consented == keys
  {
    assert keys == (keys - consented) + consented;
  }

  /** Disclosures and consents being right, the comparison of the missing keys and of canProceed decides. */
  lemma RestDecides(keys: set<string>, v: View)
    requires CoversOnce(keys, v.disclosures) && ConsentsFit(v, ByKey(v.disclosures), v.consents)
    ensures var expected := Missing(v.disclosures, ConsentKeys(v.consents));
      Contract(keys, v) <==>
        (&& (forall k <- v.missing :: k in keys) && |Elems(v.missing)| == |v.missing| && SameSorted(expected, v.missing)
         && v.canProceed
            == (v.jurisdiction == "ELIGIBLE" && v.age == "ADULT" && v.kyc == "APPROVED" && |expected| == 0))
  {
    ConsentsMatch(v);
    ConsentKeysWithin(keys, v);
    MissingDecides(keys, v.disclosures, ConsentKeys(v.consents), v.missing);
    NoneMissingIff(keys, v.disclosures, ConsentKeys(v.consents));
  }

  /** The reported missing keys complete the consented ones exactly when they pass the three checks. */
  lemma MissingDecides(keys: set<string>, disclosures: seq<Disclosure>, consented: set<string>, missing: seq<string>)
    requires CoversOnce(keys, disclosures) && consented <= keys
    ensures Distinct(missing) && consented !! Elems(missing) && consented + Elems(missing) == keys <==>
      (&& (forall k <- missing :: k in keys) && |Elems(missing)| == |missing|
       && SameSorted(Missing(disclosures, consented), missing))
  {
    SizeTellsDistinct(missing);
    MissingOfCover(keys, disclosures, consented);
    Partition(keys, consented, Elems(missing));
    assert forall k <- missing :: k in Elems(missing);
    if Distinct(missing) {
      SameSortedIsSameSet(Missing(disclosures, consented), missing);
    }
  }

  lemma NoneMissingIff(keys: set<string>, disclosures: seq<Disclosure>, consented: set<string>)
    requires CoversOnce(keys, disclosures) && consented <= keys
    ensures |Missing(disclosures, consented)| == 0 <==> consented == keys
  {
    MissingOfCover(keys, disclosures, consented);
    Partition(keys, consented, {});
    NoneMissing(Missing(disclosures, consented));
  }

  lemma NoneMissing(expected: seq<string>)
    ensures |expected| == 0 <==> Elems(expected) == {}
  {
    if expected != [] {
      assert expected[0] in Elems(expected);
    }
  }

  /** The relational part of isEligibilityStatusView accepts exactly the views that meet the contract. */
  method IsEligibilityStatusView(keys: set<string>, v: View) returns (ok: bool)
    ensures ok <==> Contract(keys, v)
  {
    CountingCoversOnce(keys, v.disclosures);
    if !DisclosuresPass(keys, v.disclosures) {
      return false;
    }
    var byKey := ByKey(v.disclosures);
    var collected := CollectConsents(v, byKey);
    ConsentsMatch(v);
    if collected.None? {
      return false;
    }
    var consentKeys := collected.value;
    RestDecides(keys, v);
    if (exists k <- v.missing :: k !in keys) || |Elems(v.missing)| != |v.missing| {
      return false;
    }
    var expectedMissing := Missing(v.disclosures, consentKeys);
    if !SameSorted(expectedMissing, v.missing) {
      return false;
    }
    return v.canProceed
      == (v.jurisdiction == "ELIGIBLE" && v.age == "ADULT" && v.kyc == "APPROVED" && |expectedMissing| == 0);
  }
}
