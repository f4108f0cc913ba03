/** What the claim loop of backend/internal/generationclaims/repository.go returns. */
module GenerationLoop {
  import opened Wrappers
  import opened GenerationClaims

  /** The claims name the first eligible jobs, in order, each with its own identifier. */
  ghost predicate InOrder(t: Table, ids: seq<id>, at: instant, claims: seq<Claim>) {
    && |claims| <= |ids|
    && (forall i :: 0 <= i < |claims| ==>
          claims[i].workspaceId in t && Eligible(t[claims[i].workspaceId], at)
          && claims[i] == Claim(ids[i], claims[i].workspaceId, t[claims[i].workspaceId].createdEpoch))
    && (forall i, j :: 0 <= i < j < |claims| ==> Before(t, claims[i].workspaceId, claims[j].workspaceId))
  }

  ghost predicate IsClaimed(claims: seq<Claim>, ws: id) {
    exists i :: 0 <= i < |claims| && claims[i].workspaceId == ws
  }

  /** Every eligible job left out comes after the claimed ones; none is left out unless the limit is reached. */
  ghost predicate NoneSkipped(t: Table, limit: nat, at: instant, claims: seq<Claim>)
    requires forall i :: 0 <= i < |claims| ==> claims[i].workspaceId in t
  {
    forall ws :: ws in t && Eligible(t[ws], at) && !IsClaimed(claims, ws) ==>
      |claims| == limit && forall i :: 0 <= i < |claims| ==> Before(t, claims[i].workspaceId, ws)
  }

  /** The claimed rows are leased until `until`, and no other row is touched. */
  ghost predicate OnlyClaimed(t: Table, t': Table, until: instant, claims: seq<Claim>)
    requires forall i :: 0 <= i < |claims| ==> claims[i].workspaceId in t
  {
    && t'.Keys == t.Keys
    && (forall i :: 0 <= i < |claims| ==>
          t'[claims[i].workspaceId] == ClaimedRow(t[claims[i].workspaceId], claims[i].claimId, until))
    && (forall ws :: ws in t && !IsClaimed(claims, ws) ==> t'[ws] == t[ws])
  }

  /** After one claim under a lease that outlasts the instant, exactly that job is no longer eligible. */
  lemma AfterOneClaim(t: Table, ws: id, claimId: id, at: instant, until: instant)
    requires ws in t && until > at
    ensures var t' := t[ws := ClaimedRow(t[ws], claimId, until)];
      && t'.Keys == t.Keys
      && (forall w :: w in t ==> Eligible(t'[w], at) == (w != ws && Eligible(t[w], at)))
      && (forall u, w :: u in t && w in t ==> Before(t', u, w) == Before(t, u, w))
  {
  }

  /** With a lease that outlasts the instant, the loop claims exactly the first eligible jobs. */
  lemma {:induction false} ClaimsFirstJobs(t: Table, ids: seq<id>, at: instant, until: instant)
    requires until > at
    ensures var (t', claims) := ClaimAll(t, ids, at, until);
      InOrder(t, ids, at, claims) && NoneSkipped(t, |ids|, at, claims) && OnlyClaimed(t, t', until, claims)
  {
    hide ClaimAll, Eligible, Before;
    ClaimAllStep(t, ids, at, until);
    if |ids| > 0 && First(t, at).Some? {
      var ws := First(t, at).value;
      var t1 := t[ws := ClaimedRow(t[ws], ids[0], until)];
      var (t', rest) := ClaimAll(t1, ids[1..], at, until);
      ClaimsFirstJobs(t1, ids[1..], at, until);
      AfterOneClaim(t, ws, ids[0], at, until);
      Extended(t, ids, at, until, ws, t', rest);
    }
  }

  lemma Extended(t: Table, ids: seq<id>, at: instant, until: instant, ws: id, t': Table, rest: seq<Claim>)
    requires |ids| > 0 && until > at && IsFirst(t, at, ws)
    requires var t1 := t[ws := ClaimedRow(t[ws], ids[0], until)];
      InOrder(t1, ids[1..], at, rest) && NoneSkipped(t1, |ids| - 1, at, rest) && OnlyClaimed(t1, t', until, rest)
    ensures var claims := [Claim(ids[0], ws, t[ws].createdEpoch)] + rest;
      InOrder(t, ids, at, claims) && NoneSkipped(t, |ids|, at, claims) && OnlyClaimed(t, t', until, claims)
  {
    hide Eligible, Before, NoneSkipped, OnlyClaimed, InOrder;
    var t1 := t[ws := ClaimedRow(t[ws], ids[0], until)];
    var claims := [Claim(ids[0], ws, t[ws].createdEpoch)] + rest;
    AfterOneClaim(t, ws, ids[0], at, until);
    assert claims[1..] == rest;
    ExtendedOrder(t, ids, at, until, ws, rest);
    InTable(t1, ids[1..], at, rest);
    ExtendedSkips(t, |ids|, at, ws, rest, claims, t1);
    ExtendedRows(t, ids[0], until, ws, t', rest, claims);
  }

  lemma InTable(t: Table, ids: seq<id>, at: instant, claims: seq<Claim>)
    requires InOrder(t, ids, at, claims)
    ensures forall i :: 0 <= i < |claims| ==> claims[i].workspaceId in t && Eligible(t[claims[i].workspaceId], at)
  {
    hide Eligible;
  }

  lemma ExtendedRows(t: Table, claimId: id, until: instant, ws: id, t': Table, rest: seq<Claim>, claims: seq<Claim>)
    requires ws in t && claims == [Claim(claimId, ws, t[ws].createdEpoch)] + rest
    requires forall i :: 0 <= i < |rest| ==> rest[i].workspaceId in t && rest[i].workspaceId != ws
    requires OnlyClaimed(t[ws := ClaimedRow(t[ws], claimId, until)], t', until, rest)
    ensures forall i :: 0 <= i < |claims| ==> claims[i].workspaceId in t
    ensures OnlyClaimed(t, t', until, claims)
  {
    var t1 := t[ws := ClaimedRow(t[ws], claimId, until)];
    assert claims[1..] == rest;
    forall w | w in t
      ensures !IsClaimed(claims, w) ==> t'[w] == t[w]
    {
      ClaimedBy(claims, rest, w);
    }
    assert !IsClaimed(rest, ws);
    forall i | 0 <= i < |claims|
      ensures claims[i].workspaceId in t
      ensures t'[claims[i].workspaceId] == ClaimedRow(t[claims[i].workspaceId], claims[i].claimId, until)
    {
      if i > 0 {
        assert claims[i] == rest[i - 1];
      }
    }
  }

  lemma ClaimedBy(claims: seq<Claim>, rest: seq<Claim>, w: id)
    requires |claims| == |rest| + 1 && claims[1..] == rest
    ensures IsClaimed(claims, w) <==> w == claims[0].workspaceId || IsClaimed(rest, w)
  {
    if IsClaimed(rest, w) {
      var i :| 0 <= i < |rest| && rest[i].workspaceId == w;
      assert claims[i + 1] == rest[i];
    }
    if IsClaimed(claims, w) && w != claims[0].workspaceId {
      var i :| 0 <= i < |claims| && claims[i].workspaceId == w;
      assert rest[i - 1] == claims[i];
    }
  }

  lemma ExtendedOrder(t: Table, ids: seq<id>, at: instant, until: instant, ws: id, rest: seq<Claim>)
    requires |ids| > 0 && until > at && IsFirst(t, at, ws)
    requires InOrder(t[ws := ClaimedRow(t[ws], ids[0], until)], ids[1..], at, rest)
    ensures InOrder(t, ids, at, [Claim(ids[0], ws, t[ws].createdEpoch)] + rest)
  {
    hide Eligible, Before;
    var t1 := t[ws := ClaimedRow(t[ws], ids[0], until)];
    var claims := [Claim(ids[0], ws, t[ws].createdEpoch)] + rest;
    AfterOneClaim(t, ws, ids[0], at, until);
    forall i | 0 <= i < |claims|
      ensures claims[i].workspaceId in t && Eligible(t[claims[i].workspaceId], at)
      ensures claims[i] == Claim(ids[i], claims[i].workspaceId, t[claims[i].workspaceId].createdEpoch)
      ensures i > 0 ==> claims[i].workspaceId != ws && Before(t, ws, claims[i].workspaceId)
    {
      if i > 0 {
        assert claims[i] == rest[i - 1] && ids[1..][i - 1] == ids[i];
        assert Eligible(t1[rest[i - 1].workspaceId], at);
      }
    }
    forall i, j | 0 <= i < j < |claims|
      ensures Before(t, claims[i].workspaceId, claims[j].workspaceId)
    {
      if i > 0 {
        assert Before(t1, rest[i - 1].workspaceId, rest[j - 1].workspaceId);
      }
    }
  }

  lemma ExtendedSkips(t: Table, limit: nat, at: instant, ws: id, rest: seq<Claim>, claims: seq<Claim>, t1: Table)
    requires limit > 0 && IsFirst(t, at, ws) && t1.Keys == t.Keys
    requires |claims| == |rest| + 1 && claims[1..] == rest && claims[0].workspaceId == ws
    requires forall i :: 0 <= i < |rest| ==> rest[i].workspaceId in t
    requires forall w :: w in t ==> Eligible(t1[w], at) == (w != ws && Eligible(t[w], at))
    requires forall u, w :: u in t && w in t ==> Before(t1, u, w) == Before(t, u, w)
    requires NoneSkipped(t1, limit - 1, at, rest)
    ensures forall i :: 0 <= i < |claims| ==> claims[i].workspaceId in t
    ensures NoneSkipped(t, limit, at, claims)
  {
    hide Eligible, Before;
    forall i | 0 <= i < |claims|
      ensures claims[i].workspaceId in t
    {
      if i > 0 {
        assert claims[i] == rest[i - 1];
      }
    }
    forall w | w in t && Eligible(t[w], at) && !IsClaimed(claims, w)
      ensures |claims| == limit && forall i :: 0 <= i < |claims| ==> Before(t, claims[i].workspaceId, w)
    {
      ClaimedBy(claims, rest, w);
      assert Eligible(t1[w], at);
      forall i | 0 <= i < |claims|
        ensures Before(t, claims[i].workspaceId, w)
      {
        if i > 0 {
          assert claims[i] == rest[i - 1];
          assert Before(t1, rest[i - 1].workspaceId, w);
        }
      }
    }
  }

  // ---------------------------------------------------------------- short leases

  /** A lease outlasts its own start exactly when it is at least a microsecond long. */
  lemma LeaseOutlastsStart(at: instant, lease: int)
    requires at % MICROSECOND == 0 && lease > 0
    ensures NormalizeTime(at + lease) >= at
    ensures NormalizeTime(at + lease) > at <==> lease >= MICROSECOND
  {
  }

  /** A lease that ends where it starts keeps nothing: every turn of the loop claims the same job. */
  lemma {:induction false} EmptyLeaseReclaims(t: Table, ids: seq<id>, at: instant, until: instant, ws: id)
    requires until <= at && IsFirst(t, at, ws)
    ensures var claims := ClaimAll(t, ids, at, until).1;
      |claims| == |ids| && forall i :: 0 <= i < |claims| ==> claims[i].workspaceId == ws
  {
    hide ClaimAll, Before;
    ClaimAllStep(t, ids, at, until);
    if |ids| > 0 {
      FirstIsUnique(t, at, ws, First(t, at).value);
      var t1 := t[ws := ClaimedRow(t[ws], ids[0], until)];
      StillFirst(t, ws, ids[0], at, until);
      EmptyLeaseReclaims(t1, ids[1..], at, until, ws);
    }
  }

  lemma StillFirst(t: Table, ws: id, claimId: id, at: instant, until: instant)
    requires IsFirst(t, at, ws) && until <= at
    ensures IsFirst(t[ws := ClaimedRow(t[ws], claimId, until)], at, ws)
  {
    var t1 := t[ws := ClaimedRow(t[ws], claimId, until)];
    forall w | w in t1 && w != ws && Eligible(t1[w], at)
      ensures Before(t1, ws, w)
    {
      assert Eligible(t[w], at);
    }
  }

  /** No job is claimed twice by one call, whatever the table, exactly when the lease is at least a
      microsecond long. */
  lemma DistinctIffLeaseLasts(at: instant, lease: int)
    requires at % MICROSECOND == 0 && lease > 0
    ensures lease >= MICROSECOND <==> NeverClaimsTwice(at, NormalizeTime(at + lease))
  {
    hide ClaimAll;
    var until := NormalizeTime(at + lease);
    LeaseOutlastsStart(at, lease);
    if lease >= MICROSECOND {
      forall t: Table, ids: seq<id>
        ensures ClaimsEachJobOnce(t, ids, at, until)
      {
        ClaimsFirstJobs(t, ids, at, until);
        OrderedIsDistinct(t, ids, at, ClaimAll(t, ids, at, until).1);
      }
    } else {
      var row := Row([1], None, 1, Queued, 0, at, None, None, 0, None, None, 1);
      var t: Table := map[[1] := row];
      var ids: seq<id> := [[1], [2]];
      assert IsFirst(t, at, [1]);
      EmptyLeaseReclaims(t, ids, at, until, [1]);
      var claims := ClaimAll(t, ids, at, until).1;
      assert claims[0].workspaceId == claims[1].workspaceId;
      assert !ClaimsEachJobOnce(t, ids, at, until);
    }
  }

  ghost predicate ClaimsEachJobOnce(t: Table, ids: seq<id>, at: instant, until: instant) {
    DistinctJobs(ClaimAll(t, ids, at, until).1)
  }

  ghost predicate NeverClaimsTwice(at: instant, until: instant) {
    forall t: Table, ids: seq<id> :: ClaimsEachJobOnce(t, ids, at, until)
  }

  ghost predicate DistinctJobs(claims: seq<Claim>) {
    forall i, j :: 0 <= i < j < |claims| ==> claims[i].workspaceId != claims[j].workspaceId
  }

  lemma OrderedIsDistinct(t: Table, ids: seq<id>, at: instant, claims: seq<Claim>)
    requires InOrder(t, ids, at, claims)
    ensures DistinctJobs(claims)
  {
    hide Eligible, Before;
    forall i, j | 0 <= i < j < |claims|
      ensures claims[i].workspaceId != claims[j].workspaceId
    {
      BeforeIsOrder(t, claims[i].workspaceId, claims[j].workspaceId, claims[i].workspaceId);
    }
  }
}
