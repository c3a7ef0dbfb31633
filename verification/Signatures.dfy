/** The loops over several signatures of one blob, in the PKCS7 and the GPG engine. */
module Signatures {
  import opened Common
  import opened Engine

  // ---- PKCS7

  /** What GnuTLS says of one signature: its details, the trust list to check it against, and the check. */
  datatype Pkcs7Signature = Pkcs7Signature(
    hasInfo: bool, hasTrustList: bool, verifies: bool, signingTime: I64, dn: Option<CString>)

  ghost predicate Passes(s: Pkcs7Signature)
  {
    s.hasInfo && s.hasTrustList && s.verifies
  }

  /** A signature without a time counts as signed in the first second. */
  ghost function SigningTime(s: Pkcs7Signature): I64
  {
    if s.signingTime > 0 then s.signingTime else 1
  }

  /** The signature at i is newer than every one before it. */
  ghost predicate SetsRecord(sigs: seq<Pkcs7Signature>, i: nat)
  {
    i < |sigs| && forall j :: 0 <= j < i ==> SigningTime(sigs[j]) < SigningTime(sigs[i])
  }

  ghost predicate IsNewest(sigs: seq<Pkcs7Signature>, t: I64)
  {
    (exists i :: 0 <= i < |sigs| && SigningTime(sigs[i]) == t)
    && forall i :: 0 <= i < |sigs| ==> SigningTime(sigs[i]) <= t
  }

  /** k set a record and has a printable name, and no later record does. */
  ghost predicate NamesAuthority(sigs: seq<Pkcs7Signature>, k: nat)
  {
    SetsRecord(sigs, k) && sigs[k].dn.Some?
    && forall j :: k < j < |sigs| && SetsRecord(sigs, j) ==> sigs[j].dn == None
  }

  ghost predicate IsAuthority(sigs: seq<Pkcs7Signature>, authority: CString)
  {
    (exists k: nat :: NamesAuthority(sigs, k) && sigs[k].dn == Some(authority))
    || (authority == [] && forall j :: 0 <= j < |sigs| && SetsRecord(sigs, j) ==> sigs[j].dn == None)
  }

  /**
   * Every signature must pass, and there must be one.  The result carries the latest signing time and the
   * name of the last record-setting signature whose name can be printed.
   */
  method VerifyPkcs7(sigs: seq<Pkcs7Signature>) returns (r: Option<Result>)
    ensures r.Some? <==> sigs != [] && forall i :: 0 <= i < |sigs| ==> Passes(sigs[i])
    ensures r.Some? ==> r.value.kind == PKCS7 && IsNewest(sigs, r.value.timestamp)
    ensures r.Some? ==> r.value.authority.Some? && IsAuthority(sigs, r.value.authority.value)
  {
    if |sigs| == 0 {
      return None;
    }
    var newest: I64, authority: CString := 0, [];
    for i := 0 to |sigs|
      invariant forall j :: 0 <= j < i ==> Passes(sigs[j])
      invariant if i == 0 then newest == 0 else IsNewest(sigs[..i], newest)
      invariant IsAuthority(sigs[..i], authority)
    {
      var info := sigs[i];
      if !info.hasInfo {
        return None;
      }
      if !info.hasTrustList {
        return None;
      }
      if !info.verifies {
        return None;
      }
      var signingTime: I64 := if info.signingTime > 0 then info.signingTime else 1;
      Pkcs7Step(sigs, i, newest, authority);
      if signingTime > newest {
        newest := signingTime;
        if info.dn.Some? {
          authority := info.dn.value;
        }
      }
    }
    TakeAll(sigs);
    return Some(Result(PKCS7, newest, Some(authority)));
  }

  lemma NewestStep(front: seq<Pkcs7Signature>, s: Pkcs7Signature, newest: I64)
    requires if front == [] then newest == 0 else IsNewest(front, newest)
    ensures IsNewest(front + [s], if SigningTime(s) > newest then SigningTime(s) else newest)
  {
    var all := front + [s];
    assert all[|front|] == s;
    if SigningTime(s) <= newest {
      var i :| 0 <= i < |front| && SigningTime(front[i]) == newest;
      assert SigningTime(all[i]) == newest;
    }
  }

  lemma RecordStep(front: seq<Pkcs7Signature>, s: Pkcs7Signature, newest: I64)
    requires if front == [] then newest == 0 else IsNewest(front, newest)
    ensures forall j: nat :: j < |front| ==> (SetsRecord(front + [s], j) <==> SetsRecord(front, j))
    ensures SetsRecord(front + [s], |front|) <==> SigningTime(s) > newest
  {
    var all := front + [s];
    assert forall j: nat :: j < |front| ==> all[j] == front[j];
    if front != [] && SetsRecord(all, |front|) {
      var i :| 0 <= i < |front| && SigningTime(front[i]) == newest;
      assert SigningTime(all[i]) < SigningTime(all[|front|]);
    }
  }

  lemma AuthorityStep(front: seq<Pkcs7Signature>, s: Pkcs7Signature, newest: I64, authority: CString)
    requires if front == [] then newest == 0 else IsNewest(front, newest)
    requires IsAuthority(front, authority)
    ensures IsAuthority(front + [s], if SigningTime(s) > newest && s.dn.Some? then s.dn.value else authority)
  {
    var all := front + [s];
    RecordStep(front, s, newest);
    if SigningTime(s) > newest && s.dn.Some? {
      assert NamesAuthority(all, |front|);
    } else if exists k: nat :: NamesAuthority(front, k) && front[k].dn == Some(authority) {
      var k: nat :| NamesAuthority(front, k) && front[k].dn == Some(authority);
      assert all[k] == front[k];
      assert NamesAuthority(all, k);
    }
  }

  lemma Pkcs7Step(sigs: seq<Pkcs7Signature>, i: nat, newest: I64, authority: CString)
    requires i < |sigs| && IsAuthority(sigs[..i], authority)
    requires if i == 0 then newest == 0 else IsNewest(sigs[..i], newest)
    ensures var s := sigs[i];
            && IsNewest(sigs[..i + 1], if SigningTime(s) > newest then SigningTime(s) else newest)
            && IsAuthority(sigs[..i + 1], if SigningTime(s) > newest && s.dn.Some? then s.dn.value else authority)
  {
    assert sigs[..i + 1] == sigs[..i] + [sigs[i]];
    NewestStep(sigs[..i], sigs[i], newest);
    AuthorityStep(sigs[..i], sigs[i], newest, authority);
  }

  /** The first signature with the latest time. */
  ghost predicate FirstNewest(sigs: seq<Pkcs7Signature>, i: nat)
  {
    SetsRecord(sigs, i) && IsNewest(sigs, SigningTime(sigs[i]))
  }

  /**
   * The authority is the signer of the newest signature whenever that signer's name can be printed, and
   * otherwise the name of an older one or no name at all, although the time reported is the newest.
   */
  lemma AuthorityOfNewest(sigs: seq<Pkcs7Signature>, i: nat, authority: CString)
    requires FirstNewest(sigs, i) && IsAuthority(sigs, authority)
    ensures sigs[i].dn.Some? ==> sigs[i].dn == Some(authority)
    ensures sigs[i].dn == None ==>
      authority == [] || exists k :: 0 <= k < i && SetsRecord(sigs, k) && sigs[k].dn == Some(authority)
  {
    forall j | i < j < |sigs| ensures !SetsRecord(sigs, j) {
      assert SigningTime(sigs[j]) <= SigningTime(sigs[i]);
    }
    if authority != [] {
      var k: nat :| NamesAuthority(sigs, k) && sigs[k].dn == Some(authority);
      assert k <= i;
    }
  }

  // ---- GPG

  datatype GpgSignature = GpgSignature(valid: bool, timestamp: I64, fingerprint: CString)

  /** The signature at i is the first to reach a positive maximum. */
  ghost predicate FirstLatest(sigs: seq<GpgSignature>, i: nat)
  {
    && i < |sigs| && sigs[i].timestamp > 0
    && (forall j :: 0 <= j < |sigs| ==> sigs[j].timestamp <= sigs[i].timestamp)
    && (forall j :: 0 <= j < i ==> sigs[j].timestamp < sigs[i].timestamp)
  }

  ghost predicate IsLatest(sigs: seq<GpgSignature>, timestamp: I64, authority: CString)
  {
    if exists j :: 0 <= j < |sigs| && sigs[j].timestamp > 0
    then exists i: nat :: FirstLatest(sigs, i) && sigs[i].timestamp == timestamp && sigs[i].fingerprint == authority
    else timestamp == 0 && authority == []
  }

  /**
   * Every signature must be valid, and there must be one.  The result carries the latest time and the fingerprint
   * of the first signature with it; signatures without a time leave neither.
   */
  method VerifyGpg(sigs: seq<GpgSignature>) returns (r: Option<Result>)
    ensures r.Some? <==> sigs != [] && forall i :: 0 <= i < |sigs| ==> sigs[i].valid
    ensures r.Some? ==> r.value.kind == GPG && r.value.authority.Some?
                        && IsLatest(sigs, r.value.timestamp, r.value.authority.value)
  {
    if |sigs| == 0 {
      return None;
    }
    var newest: I64, authority: CString := 0, [];
    for i := 0 to |sigs|
      invariant forall j :: 0 <= j < i ==> sigs[j].valid
      invariant IsLatest(sigs[..i], newest, authority)
    {
      if !sigs[i].valid {
        return None;
      }
      GpgStep(sigs, i, newest, authority);
      if sigs[i].timestamp > newest {
        newest := sigs[i].timestamp;
        authority := sigs[i].fingerprint;
      }
    }
    TakeAll(sigs);
    return Some(Result(GPG, newest, Some(authority)));
  }

  lemma GpgStep(sigs: seq<GpgSignature>, i: nat, newest: I64, authority: CString)
    requires i < |sigs| && IsLatest(sigs[..i], newest, authority)
    ensures var s := sigs[i];
            if s.timestamp > newest then IsLatest(sigs[..i + 1], s.timestamp, s.fingerprint)
            else IsLatest(sigs[..i + 1], newest, authority)
  {
    assert sigs[..i + 1] == sigs[..i] + [sigs[i]];
    LatestStep(sigs[..i], sigs[i], newest, authority);
  }

  lemma LatestStep(front: seq<GpgSignature>, s: GpgSignature, newest: I64, authority: CString)
    requires IsLatest(front, newest, authority)
    ensures if s.timestamp > newest then IsLatest(front + [s], s.timestamp, s.fingerprint)
            else IsLatest(front + [s], newest, authority)
  {
    var all := front + [s];
    assert all[|front|] == s;
    assert forall j :: 0 <= j < |front| ==> all[j] == front[j];
    if s.timestamp > newest {
      assert FirstLatest(all, |front|);
    } else if exists j :: 0 <= j < |front| && front[j].timestamp > 0 {
      var i: nat :| FirstLatest(front, i) && front[i].timestamp == newest && front[i].fingerprint == authority;
      assert FirstLatest(all, i);
    }
  }
}
