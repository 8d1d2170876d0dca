/** `deploymentIdentityFingerprint` (api/src/services/duskDeploymentService.ts):
    the digest input binds nineteen envelope fields and no others. */
module DeploymentIdentity {
  import opened Options
  import opened TextOrder
  import opened CanonicalJson

  datatype Envelope = Envelope(
    schemaVersion: Text,
    network: Text,
    genesisHash: Text,
    programId: Text,
    programDataAddress: Text,
    programDataSlot: Text,
    programUpgradeAuthority: Option<Text>,
    leverageDelegateProgramId: Text,
    leverageDelegateProgramDataAddress: Text,
    leverageDelegateProgramDataSlot: Text,
    leverageDelegateUpgradeAuthority: Option<Text>,
    idlSha256: Text,
    idlRawSha256: Text,
    leverageDelegateIdlSha256: Text,
    leverageDelegateIdlRawSha256: Option<Text>,
    commitment: Text,
    sourceSlot: nat,
    observedAt: Text,
    apiStartedAt: Option<Text>,
    buildRevision: Text,
    programBinarySha256: Text,
    leverageDelegateBinarySha256: Text)

  const NAMES: seq<string> := [
    "schemaVersion", "network", "genesisHash", "programId", "programDataAddress", "programDataSlot",
    "programUpgradeAuthority", "leverageDelegateProgramId", "leverageDelegateProgramDataAddress",
    "leverageDelegateProgramDataSlot", "leverageDelegateUpgradeAuthority", "idlSha256", "idlRawSha256",
    "leverageDelegateIdlSha256", "leverageDelegateIdlRawSha256", "commitment", "buildRevision",
    "programBinarySha256", "leverageDelegateBinarySha256"]

  function Nullable(t: Option<Text>): Json {
    match t
    case None => Null
    case Some(units) => String(units)
  }

  function Values(e: Envelope): (r: seq<Json>)
    ensures |r| == |NAMES|
  {
    [String(e.schemaVersion), String(e.network), String(e.genesisHash), String(e.programId),
     String(e.programDataAddress), String(e.programDataSlot), Nullable(e.programUpgradeAuthority),
     String(e.leverageDelegateProgramId), String(e.leverageDelegateProgramDataAddress),
     String(e.leverageDelegateProgramDataSlot), Nullable(e.leverageDelegateUpgradeAuthority),
     String(e.idlSha256), String(e.idlRawSha256), String(e.leverageDelegateIdlSha256),
     Nullable(e.leverageDelegateIdlRawSha256), String(e.commitment), String(e.buildRevision),
     String(e.programBinarySha256), String(e.leverageDelegateBinarySha256)]
  }

  function Name(i: nat): Text
    requires i < |NAMES|
  {
    Ascii(NAMES[i])
  }

  function Bound(e: Envelope): (r: Json)
    ensures r.Object? && |r.members| == |NAMES|
  {
    Object(seq(|NAMES|, i requires 0 <= i < |NAMES| => Entry(Name(i), Values(e)[i])))
  }

  /** The `i`th member of the digest's input. */
  predicate Stands(e: Envelope, i: nat, name: string, value: Json) {
    i < |NAMES| && NAMES[i] == name && Values(e)[i] == value
  }

  /** Each value stands under its own field's name. */
  lemma {:induction false} FirstStand(e: Envelope)
    ensures Stands(e, 0, "schemaVersion", String(e.schemaVersion))
    ensures Stands(e, 1, "network", String(e.network))
    ensures Stands(e, 2, "genesisHash", String(e.genesisHash))
    ensures Stands(e, 3, "programId", String(e.programId))
    ensures Stands(e, 4, "programDataAddress", String(e.programDataAddress))
    ensures Stands(e, 5, "programDataSlot", String(e.programDataSlot))
    ensures Stands(e, 6, "programUpgradeAuthority", Nullable(e.programUpgradeAuthority))
  {
  }

  lemma {:induction false} MiddleStand(e: Envelope)
    ensures Stands(e, 7, "leverageDelegateProgramId", String(e.leverageDelegateProgramId))
    ensures Stands(e, 8, "leverageDelegateProgramDataAddress", String(e.leverageDelegateProgramDataAddress))
    ensures Stands(e, 9, "leverageDelegateProgramDataSlot", String(e.leverageDelegateProgramDataSlot))
    ensures Stands(e, 10, "leverageDelegateUpgradeAuthority", Nullable(e.leverageDelegateUpgradeAuthority))
    ensures Stands(e, 11, "idlSha256", String(e.idlSha256))
    ensures Stands(e, 12, "idlRawSha256", String(e.idlRawSha256))
  {
  }

  lemma {:induction false} LastStand(e: Envelope)
    ensures Stands(e, 13, "leverageDelegateIdlSha256", String(e.leverageDelegateIdlSha256))
    ensures Stands(e, 14, "leverageDelegateIdlRawSha256", Nullable(e.leverageDelegateIdlRawSha256))
    ensures Stands(e, 15, "commitment", String(e.commitment))
    ensures Stands(e, 16, "buildRevision", String(e.buildRevision))
    ensures Stands(e, 17, "programBinarySha256", String(e.programBinarySha256))
    ensures Stands(e, 18, "leverageDelegateBinarySha256", String(e.leverageDelegateBinarySha256))
  {
  }

  lemma {:induction false} BoundHolds(e: Envelope, i: nat, name: string, value: Json)
    requires Stands(e, i, name, value)
    ensures |Bound(e).members| == 19 && Bound(e).members[i] == Entry(Ascii(name), value)
  {
    hide Values;
  }

  /** What is hashed into `deploymentIdentitySha256`. */
  function Preimage(e: Envelope): Option<Text> {
    Canonical(Bound(e))
  }

  /** Which name a text is, told by its length and one or two units. */
  function NameIndex(t: Text): int {
    if |t| == 13 then if t[0] == 0x73 then 0 else 16
    else if |t| == 7 then 1
    else if |t| == 11 then 2
    else if |t| == 9 then if t[0] == 0x70 then 3 else 11
    else if |t| == 18 then 4
    else if |t| == 15 then 5
    else if |t| == 23 then 6
    else if |t| == 25 then if t[16] == 0x50 then 7 else 13
    else if |t| == 34 then 8
    else if |t| == 31 then 9
    else if |t| == 32 then 10
    else if |t| == 12 then 12
    else if |t| == 28 then if t[16] == 0x49 then 14 else 18
    else if |t| == 10 then 15
    else 17
  }

  lemma {:induction false} NameHasIndex(i: nat)
    requires i < |NAMES|
    ensures NameIndex(Name(i)) == i
  {
  }

  lemma {:induction false} BoundIsWellFormed(e: Envelope)
    ensures WellFormed(Bound(e)) && !HasUndefined(Bound(e))
  {
    var ms := Bound(e).members;
    forall i, j | 0 <= i < j < |ms| ensures ms[i].key != ms[j].key {
      NameHasIndex(i);
      NameHasIndex(j);
    }
    forall i | 0 <= i < |ms| ensures WellFormed(ms[i].value) && !HasUndefined(ms[i].value) {
    }
  }

  lemma {:induction false} SameAtIndex(a: Envelope, b: Envelope, i: nat)
    requires i < |NAMES| && DistinctKeys(Bound(b).members)
    ensures HasKey(Bound(b).members, Name(i)) && Lookup(Bound(b).members, Name(i)) == Values(b)[i]
    ensures Same(Values(a)[i], Values(b)[i]) <==> Values(a)[i] == Values(b)[i]
  {
    hide Values, Name;
    assert Bound(b).members[i].key == Name(i);
    ValueIsScalar(a, i);
    ValueIsScalar(b, i);
    SameScalar(Values(a)[i], Values(b)[i]);
  }

  lemma {:induction false} ValueIsScalar(e: Envelope, i: nat)
    requires i < |NAMES|
    ensures Values(e)[i].String? || Values(e)[i].Null?
  {
  }

  lemma {:induction false} SameScalar(x: Json, y: Json)
    requires (x.String? || x.Null?) && (y.String? || y.Null?)
    ensures Same(x, y) <==> x == y
  {
  }

  lemma {:induction false} SameBoundIffValues(a: Envelope, b: Envelope)
    ensures Same(Bound(a), Bound(b)) <==> Values(a) == Values(b)
  {
    hide Values, Name, Lookup;
    BoundIsWellFormed(b);
    forall i: nat | i < |NAMES|
      ensures HasKey(Bound(b).members, Name(i)) && Lookup(Bound(b).members, Name(i)) == Values(b)[i]
      ensures Same(Values(a)[i], Values(b)[i]) <==> Values(a)[i] == Values(b)[i]
    {
      SameAtIndex(a, b, i);
    }
    var ma := Bound(a).members;
    assert forall i :: 0 <= i < |ma| ==> ma[i].key == Name(i) && ma[i].value == Values(a)[i];
  }

  /** Agreement on every field the fingerprint lists. */
  predicate SameRelease(a: Envelope, b: Envelope) {
    && a.schemaVersion == b.schemaVersion && a.network == b.network && a.genesisHash == b.genesisHash
    && a.programId == b.programId && a.programDataAddress == b.programDataAddress
    && a.programDataSlot == b.programDataSlot && a.programUpgradeAuthority == b.programUpgradeAuthority
    && a.leverageDelegateProgramId == b.leverageDelegateProgramId
    && a.leverageDelegateProgramDataAddress == b.leverageDelegateProgramDataAddress
    && a.leverageDelegateProgramDataSlot == b.leverageDelegateProgramDataSlot
    && a.leverageDelegateUpgradeAuthority == b.leverageDelegateUpgradeAuthority
    && a.idlSha256 == b.idlSha256 && a.idlRawSha256 == b.idlRawSha256
    && a.leverageDelegateIdlSha256 == b.leverageDelegateIdlSha256
    && a.leverageDelegateIdlRawSha256 == b.leverageDelegateIdlRawSha256
    && a.commitment == b.commitment && a.buildRevision == b.buildRevision
    && a.programBinarySha256 == b.programBinarySha256
    && a.leverageDelegateBinarySha256 == b.leverageDelegateBinarySha256
  }

  lemma {:induction false} FirstValues(a: Envelope, b: Envelope)
    requires Values(a) == Values(b)
    ensures a.schemaVersion == b.schemaVersion && a.network == b.network && a.genesisHash == b.genesisHash
    ensures a.programId == b.programId && a.programDataAddress == b.programDataAddress
    ensures a.programDataSlot == b.programDataSlot && a.programUpgradeAuthority == b.programUpgradeAuthority
  {
    var va, vb := Values(a), Values(b);
    assert va[0] == vb[0] && va[1] == vb[1] && va[2] == vb[2] && va[3] == vb[3];
    assert va[4] == vb[4] && va[5] == vb[5] && va[6] == vb[6];
  }

  lemma {:induction false} MiddleValues(a: Envelope, b: Envelope)
    requires Values(a) == Values(b)
    ensures a.leverageDelegateProgramId == b.leverageDelegateProgramId
    ensures a.leverageDelegateProgramDataAddress == b.leverageDelegateProgramDataAddress
    ensures a.leverageDelegateProgramDataSlot == b.leverageDelegateProgramDataSlot
    ensures a.leverageDelegateUpgradeAuthority == b.leverageDelegateUpgradeAuthority
    ensures a.idlSha256 == b.idlSha256 && a.idlRawSha256 == b.idlRawSha256
  {
    var va, vb := Values(a), Values(b);
    assert va[7] == vb[7] && va[8] == vb[8] && va[9] == vb[9];
    assert va[10] == vb[10] && va[11] == vb[11] && va[12] == vb[12];
  }

  lemma {:induction false} LastValues(a: Envelope, b: Envelope)
    requires Values(a) == Values(b)
    ensures a.leverageDelegateIdlSha256 == b.leverageDelegateIdlSha256
    ensures a.leverageDelegateIdlRawSha256 == b.leverageDelegateIdlRawSha256
    ensures a.commitment == b.commitment && a.buildRevision == b.buildRevision
    ensures a.programBinarySha256 == b.programBinarySha256
    ensures a.leverageDelegateBinarySha256 == b.leverageDelegateBinarySha256
  {
    var va, vb := Values(a), Values(b);
    assert va[13] == vb[13] && va[14] == vb[14] && va[15] == vb[15];
    assert va[16] == vb[16] && va[17] == vb[17] && va[18] == vb[18];
  }

  lemma {:induction false} ValuesIffSameRelease(a: Envelope, b: Envelope)
    ensures Values(a) == Values(b) <==> SameRelease(a, b)
  {
    if Values(a) == Values(b) {
      hide Values;
      FirstValues(a, b);
      MiddleValues(a, b);
      LastValues(a, b);
    }
  }

  /** Two envelopes share the digest input exactly when they describe the same
      release; slot, observation time and start time never enter it. */
  lemma {:induction false} PreimageIsIdentity(a: Envelope, b: Envelope)
    ensures Preimage(a).Some?
    ensures Preimage(a) == Preimage(b) <==> SameRelease(a, b)
  {
    BoundIsWellFormed(a);
    BoundIsWellFormed(b);
    ThrowsExactlyOnUndefined(Bound(a));
    CanonicalIsInjective(Bound(a), Bound(b));
    SameBoundIffValues(a, b);
    ValuesIffSameRelease(a, b);
  }
}
