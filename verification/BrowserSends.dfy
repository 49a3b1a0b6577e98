/**
 The persistent guard in front of every browser message (marketplace_browser_mcp.py, `claim_send`): one row per
 message ever attempted, in the order they were claimed. The clock is read twice in a claim, once for the
 check and once for the row; between claims it may be set to anything.
*/
module BrowserSends {
  import opened Wrappers

  const SPACING := 60

  type Fingerprint = string

  datatype Send = Send(fingerprint: Fingerprint, attemptedAt: int)

  datatype Refusal = RateLimited | Duplicate

  /** One call: what is to be sent, and the two clock readings. */
  datatype Claim = Claim(fingerprint: Fingerprint, checked: int, stamped: int)

  /** `MAX(attempted_at)`. */
  function Latest(sends: seq<Send>): Option<int> {
    if sends == [] then None
    else
      var last := sends[|sends| - 1].attemptedAt;
      match Latest(sends[..|sends| - 1])
      case Some(t) => Some(if t > last then t else last)
      case None => Some(last)
  }

  predicate Known(sends: seq<Send>, fingerprint: Fingerprint) {
    exists s <- sends :: s.fingerprint == fingerprint
  }

  /** The transaction. */
  function ClaimTx(sends: seq<Send>, claim: Claim): Result<seq<Send>, Refusal> {
    var latest := Latest(sends);
    if latest.Some? && claim.checked - latest.value < SPACING then Err(RateLimited)
    else if Known(sends, claim.fingerprint) then Err(Duplicate)
    else Ok(sends + [Send(claim.fingerprint, claim.stamped)])
  }

  /** The table after a history of calls; a refused one leaves it as it was. */
  function Table(claims: seq<Claim>): seq<Send> {
    if claims == [] then []
    else
      var earlier := Table(claims[..|claims| - 1]);
      match ClaimTx(earlier, claims[|claims| - 1])
      case Ok(sends) => sends
      case Err(_) => earlier
  }

  /** Every attempt comes at least a minute after each one claimed before it, and no message is in it twice. */
  ghost predicate Spaced(sends: seq<Send>) {
    forall i, j | 0 <= i < j < |sends| ::
      sends[i].attemptedAt + SPACING <= sends[j].attemptedAt && sends[i].fingerprint != sends[j].fingerprint
  }

  lemma {:induction false} LatestIsMaximal(sends: seq<Send>)
    ensures sends != [] ==> Latest(sends).Some? && forall s <- sends :: s.attemptedAt <= Latest(sends).value
    ensures Latest(sends).Some? ==> exists s <- sends :: s.attemptedAt == Latest(sends).value
  {
    if sends != [] {
      LatestIsMaximal(sends[..|sends| - 1]);
    }
  }

  /** A claim is stamped no earlier than it was checked: the clock was not set back inside the transaction. */
  predicate Steady(claim: Claim) {
    claim.checked <= claim.stamped
  }

  /** A claim's stamp is a minute after the newest row, if there is one. */
  predicate StampedLater(sends: seq<Send>, claim: Claim) {
    sends != [] ==> claim.stamped >= sends[|sends| - 1].attemptedAt + SPACING
  }

  /** In a spaced table the newest row is the latest one. */
  lemma NewestIsLatest(sends: seq<Send>)
    requires Spaced(sends) && sends != []
    ensures Latest(sends) == Some(sends[|sends| - 1].attemptedAt)
  {
    LatestIsMaximal(sends);
    assert sends[|sends| - 1] in sends;
  }

  /** Exactly when one granted claim keeps the table spaced: only its stamp against the newest row matters. */
  lemma ClaimKeepsSpaced(sends: seq<Send>, claim: Claim)
    requires Spaced(sends) && ClaimTx(sends, claim).Ok?
    ensures Spaced(ClaimTx(sends, claim).value) <==> StampedLater(sends, claim)
    ensures Steady(claim) ==> StampedLater(sends, claim)
  {
    var after := sends + [Send(claim.fingerprint, claim.stamped)];
    if sends != [] {
      NewestIsLatest(sends);
      assert after[|sends| - 1] == sends[|sends| - 1] && after[|sends|] == Send(claim.fingerprint, claim.stamped);
    }
    forall s <- sends ensures s.fingerprint != claim.fingerprint {
    }
  }

  /** The k-th call was refused, or was stamped a minute after the newest row of its time. */
  predicate KeepsApart(claims: seq<Claim>, k: nat)
    requires k < |claims|
  {
    var before := Table(claims[..k]);
    ClaimTx(before, claims[k]).Err? || StampedLater(before, claims[k])
  }

  lemma {:induction false} TableGrows(claims: seq<Claim>, k: nat)
    requires k <= |claims|
    ensures Table(claims[..k]) <= Table(claims)
  {
    if k < |claims| {
      TableGrows(claims[..|claims| - 1], k);
      assert claims[..|claims| - 1][..k] == claims[..k];
    } else {
      assert claims[..k] == claims;
    }
  }

  /**
   Over any history, whatever the clock does: all attempts are a minute apart and distinct if and only if every
   granted claim was stamped a minute after the newest row it found.
  */
  lemma {:induction false} SpacedExactlyWhen(claims: seq<Claim>)
    ensures Spaced(Table(claims)) <==> forall k | 0 <= k < |claims| :: KeepsApart(claims, k)
  {
    if claims != [] {
      var n := |claims| - 1;
      var before, claim := Table(claims[..n]), claims[n];
      SpacedExactlyWhen(claims[..n]);
      TableGrows(claims, n);
      forall k | 0 <= k < n ensures KeepsApart(claims[..n], k) == KeepsApart(claims, k) {
        assert claims[..n][..k] == claims[..k];
      }
      if Spaced(before) && ClaimTx(before, claim).Ok? {
        ClaimKeepsSpaced(before, claim);
      }
      assert KeepsApart(claims, n) <==> ClaimTx(before, claim).Err? || StampedLater(before, claim);
      if Spaced(Table(claims)) {
        SpacedPrefix(before, Table(claims));
      }
    }
  }

  lemma SpacedPrefix(a: seq<Send>, b: seq<Send>)
    requires a <= b && Spaced(b)
    ensures Spaced(a)
  {
  }

  /** In particular, if no claim sets the clock back inside itself, however it jumps between calls. */
  lemma {:induction false} AttemptsAreSpaced(claims: seq<Claim>)
    requires forall c <- claims :: Steady(c)
    ensures Spaced(Table(claims))
  {
    if claims != [] {
      var before, claim := Table(claims[..|claims| - 1]), claims[|claims| - 1];
      AttemptsAreSpaced(claims[..|claims| - 1]);
      if ClaimTx(before, claim).Ok? {
        ClaimKeepsSpaced(before, claim);
      }
    }
  }

  /** So the newest row is always the latest one, and a claim is granted exactly when the minute has passed and
   the message is new. */
  lemma ClaimIsGranted(claims: seq<Claim>, claim: Claim)
    requires forall c <- claims :: Steady(c)
    ensures var sends := Table(claims);
      ClaimTx(sends, claim).Ok? <==>
        && !Known(sends, claim.fingerprint)
        && (sends != [] ==> claim.checked >= sends[|sends| - 1].attemptedAt + 60)
  {
    AttemptsAreSpaced(claims);
    var sends := Table(claims);
    LatestIsMaximal(sends);
    if sends != [] {
      assert sends[|sends| - 1] in sends;
    }
  }

  /** One reading set back inside a claim is enough to lose the spacing. */
  lemma SetBackClockLosesSpacing()
    ensures !Spaced(Table([Claim("a", 0, 0), Claim("b", 60, 0)]))
  {
    var first := [Claim("a", 0, 0)];
    var both := first + [Claim("b", 60, 0)];
    assert first[..0] == [] && both[..1] == first && both == [Claim("a", 0, 0), Claim("b", 60, 0)];
    var one := [Send("a", 0)];
    assert Table([]) == [] && Latest([]) == None && Table(first) == [] + [Send("a", 0)] == one;
    assert one[..0] == [] && Latest(one) == Some(0) && one[0].fingerprint != "b";
    assert Table(both) == one + [Send("b", 0)];
    assert Table(both)[0].attemptedAt == 0 && Table(both)[1].attemptedAt == 0;
  }

  class BrowserBridge {
    var sends: seq<Send>
    ghost var claims: seq<Claim>

    ghost predicate Valid()
      reads this
    {
      sends == Table(claims) && forall c <- claims :: Steady(c)
    }

    constructor ()
      ensures Valid() && sends == [] && claims == []
    {
      sends, claims := [], [];
    }

    /** `claim_send`; what it raises leaves the table alone. */
    method ClaimSend(fingerprint: Fingerprint, checked: int, stamped: int) returns (refusal: Option<Refusal>)
      requires Valid() && checked <= stamped
      modifies this
      ensures Valid() && claims == old(claims) + [Claim(fingerprint, checked, stamped)] && Spaced(sends)
      ensures refusal == Some(RateLimited) <==>
        old(sends) != [] && checked < old(sends)[|old(sends)| - 1].attemptedAt + SPACING
      ensures refusal == Some(Duplicate) <==> refusal != Some(RateLimited) && Known(old(sends), fingerprint)
      ensures sends == if refusal.None? then old(sends) + [Send(fingerprint, stamped)] else old(sends)
    {
      ClaimIsGranted(claims, Claim(fingerprint, checked, stamped));
      AttemptsAreSpaced(claims);
      var claim := Claim(fingerprint, checked, stamped);
      ghost var longer := claims + [claim];
      assert longer[..|claims|] == claims;
      if ClaimTx(sends, claim).Ok? {
        ClaimKeepsSpaced(sends, claim);
      }
      LatestIsMaximal(sends);
      assert sends != [] ==> sends[|sends| - 1] in sends;
      claims := longer;
      var latest := Latest(sends);
      if latest.Some? && checked - latest.value < SPACING {
        return Some(RateLimited);
      }
      if Known(sends, fingerprint) {
        return Some(Duplicate);
      }
      sends := sends + [Send(fingerprint, stamped)];
      refusal := None;
    }
  }
}
