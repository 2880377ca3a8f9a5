/**
 The decision logic of the `decs-krb-refresh` script that build_host_refresh_command installs, and
 the credential cache it maintains over unboundedly many timer ticks. Times are in seconds.
 */
module TicketRefresh {
  import opened Wrappers

  /** A ticket-granting ticket; `renewTill` is None when it is not renewable. */
  datatype Ticket = Ticket(start: int, end: int, renewTill: Option<int>)

  datatype Cache = Empty | Holds(ticket: Ticket)

  /** What a keytab kinit grants. */
  datatype Grant = Grant(lifetime: int, renewable: int)

  /** One activation of the timer: the clock and whether each kinit would succeed. */
  datatype Tick = Tick(now: int, renewWorks: bool, kinitWorks: bool)

  /** `klist -s`. */
  predicate Live(c: Cache, now: int) {
    c.Holds? && now < c.ticket.end
  }

  /** The `renew until` line if klist prints one, else the expiry. */
  function Deadline(t: Ticket): int {
    if t.renewTill.Some? then t.renewTill.value else t.end
  }

  predicate ShouldReissue(c: Cache, now: int, margin: int) {
    Live(c, now) && Deadline(c.ticket) - now <= margin
  }

  function Min(a: int, b: int): int {
    if a < b then a else b
  }

  /** RFC 4120 section 3.3.3: same life again, but never past the renew-till time. */
  function Renewed(t: Ticket, now: int): Ticket
    requires t.renewTill.Some?
  {
    Ticket(now, Min(t.renewTill.value, now + (t.end - t.start)), t.renewTill)
  }

  /** `kinit -R` can only succeed on a live renewable ticket before its renew-till time. */
  predicate RenewSucceeds(c: Cache, tick: Tick) {
    && tick.renewWorks && Live(c, tick.now)
    && c.ticket.renewTill.Some? && tick.now < c.ticket.renewTill.value
  }

  function Fresh(grant: Grant, now: int): Ticket {
    Ticket(now, now + grant.lifetime, Some(now + grant.renewable))
  }

  /** The cache after one activation of the script. */
  function Refresh(c: Cache, tick: Tick, grant: Grant, margin: int): Cache {
    if !ShouldReissue(c, tick.now, margin) && RenewSucceeds(c, tick) then Holds(Renewed(c.ticket, tick.now))
    else if tick.kinitWorks then Holds(Fresh(grant, tick.now))
    else Empty
  }

  class CredentialCache {
    var cache: Cache

    /** The script itself: the file is truncated before the keytab kinit runs. */
    method Run(tick: Tick, grant: Grant, margin: int) returns (exitOk: bool)
      modifies this
      ensures cache == Refresh(old(cache), tick, grant, margin)
      ensures exitOk <==> cache.Holds?
    {
      var shouldReissue := false;
      if Live(cache, tick.now) {
        var deadline := Deadline(cache.ticket);
        if deadline - tick.now <= margin {
          shouldReissue := true;
        }
      }
      if !shouldReissue && Live(cache, tick.now) && RenewSucceeds(cache, tick) {
        cache := Holds(Renewed(cache.ticket, tick.now));
      } else {
        cache := Empty;
        if !tick.kinitWorks {
          return false;
        }
        cache := Holds(Fresh(grant, tick.now));
      }
      return true;
    }
  }

  /** Renewal is in store for a ticket that is live and renewable for longer than the margin. */
  ghost predicate RenewalDue(c: Cache, now: int, margin: int) {
    && c.Holds? && now < c.ticket.end
    && c.ticket.renewTill.Some? && now < c.ticket.renewTill.value && margin < c.ticket.renewTill.value - now
  }

  /**
   A run leaves the ticket renewed for its own life, cut at its renew-until time, if and only if renewal is due
   and works; otherwise what the keytab login grants, or nothing if that fails.
   */
  lemma RefreshExactly(c: Cache, tick: Tick, grant: Grant, margin: int)
    ensures var now := tick.now;
            Refresh(c, tick, grant, margin) ==
              if RenewalDue(c, now, margin) && tick.renewWorks then
                var end, last := now + (c.ticket.end - c.ticket.start), c.ticket.renewTill.value;
                Holds(Ticket(now, if end < last then end else last, Some(last)))
              else if tick.kinitWorks then Holds(Ticket(now, now + grant.lifetime, Some(now + grant.renewable)))
              else Empty
  {
  }

  // ---------- Whole runs ----------

  /** The cache after the first `n` ticks. */
  function After(c: Cache, ticks: seq<Tick>, n: nat, grant: Grant, margin: int): Cache
    requires n <= |ticks|
  {
    if n == 0 then c else Refresh(After(c, ticks, n - 1, grant, margin), ticks[n - 1], grant, margin)
  }

  ghost predicate Regular(ticks: seq<Tick>, gap: int) {
    && (forall i :: 0 <= i < |ticks| ==> ticks[i].kinitWorks)
    && (forall i :: 0 < i < |ticks| ==> ticks[i - 1].now <= ticks[i].now <= ticks[i - 1].now + gap)
  }

  /** A ticket from a keytab kinit, possibly renewed since: its life has not shrunk below the bound. */
  ghost predicate LongLived(c: Cache, grant: Grant, margin: int) {
    c.Holds? ==> c.ticket.end - c.ticket.start >= Min(margin + 1, grant.lifetime)
  }

  /** The state right after a tick. */
  ghost predicate Healthy(c: Cache, now: int, grant: Grant, margin: int) {
    && c.Holds? && c.ticket.start == now
    && c.ticket.renewTill.Some? && c.ticket.renewTill.value - now > margin
    && c.ticket.end - now >= Min(margin + 1, grant.lifetime)
  }

  lemma RefreshIsHealthy(c: Cache, tick: Tick, grant: Grant, margin: int)
    requires LongLived(c, grant, margin) && tick.kinitWorks && grant.renewable > margin
    ensures Healthy(Refresh(c, tick, grant, margin), tick.now, grant, margin)
  {
  }

  /**
   Ticket continuity: with ticks at most `gap` apart, `gap <= margin`, a lifetime above the gap and
   a renewable life above the margin, every tick leaves more than `margin` seconds of renewable life
   and a life of at least min(margin + 1, lifetime), however often renewals shrink it towards
   renew-till, and the cache is live at every moment up to the next tick.
   */
  lemma {:induction false} Continuity(c: Cache, ticks: seq<Tick>, n: nat, gap: int, grant: Grant, margin: int)
    requires 0 < n <= |ticks| && Regular(ticks, gap) && LongLived(c, grant, margin)
    requires gap <= margin && gap < grant.lifetime && margin < grant.renewable
    ensures Healthy(After(c, ticks, n, grant, margin), ticks[n - 1].now, grant, margin)
    ensures n < |ticks| ==> forall t :: ticks[n - 1].now <= t <= ticks[n].now ==> Live(After(c, ticks, n, grant, margin), t)
  {
    if n > 1 {
      Continuity(c, ticks, n - 1, gap, grant, margin);
    }
    RefreshIsHealthy(After(c, ticks, n - 1, grant, margin), ticks[n - 1], grant, margin);
  }

  /** No ticket is ever used past the point its original renew-till allows. */
  lemma {:induction false} EndsWithinRenewTill(c: Cache, ticks: seq<Tick>, n: nat, grant: Grant, margin: int)
    requires n <= |ticks| && grant.lifetime <= grant.renewable
    requires c.Holds? && c.ticket.renewTill.Some? ==> c.ticket.end <= c.ticket.renewTill.value
    ensures var c' := After(c, ticks, n, grant, margin);
            c'.Holds? && c'.ticket.renewTill.Some? ==> c'.ticket.end <= c'.ticket.renewTill.value
  {
    if n > 0 {
      EndsWithinRenewTill(c, ticks, n - 1, grant, margin);
    }
  }

  /**
   What truncating first costs: a tick destroys a live ticket exactly when it does not renew it and
   the keytab kinit fails (or grants a ticket with no life).
   */
  lemma LiveTicketLostExactly(c: Cache, tick: Tick, grant: Grant, margin: int)
    requires Live(c, tick.now) && grant.lifetime > 0
    requires c.ticket.start < c.ticket.end
    ensures !Live(Refresh(c, tick, grant, margin), tick.now)
            <==> (ShouldReissue(c, tick.now, margin) || !RenewSucceeds(c, tick)) && !tick.kinitWorks
  {
  }

  /** What a gap and a margin promise: whatever the grant (within reason) and the ticks, a live cache from tick to tick. */
  ghost predicate Continuous(gap: int, margin: int) {
    forall c: Cache, ticks: seq<Tick>, n: nat, grant: Grant, t: int ::
      && 0 < n < |ticks| && Regular(ticks, gap) && LongLived(c, grant, margin)
      && gap < grant.lifetime <= grant.renewable && margin < grant.renewable
      && ticks[n - 1].now <= t <= ticks[n].now
      ==> Live(After(c, ticks, n, grant, margin), t)
  }

  /**
   Why the gap may not exceed the margin, whatever the two are: the renewed ticket ends margin + 1 after
   the second tick, with every kinit working, and the third tick is not before that.
   */
  lemma GapBeyondMarginLosesTicket(gap: int, margin: int)
    requires 0 <= margin < gap
    ensures var grant := Grant(gap + 1, gap + margin + 1);
            var ticks := [Tick(0, true, true), Tick(gap, true, true), Tick(2 * gap, true, true)];
            && Regular(ticks, gap) && gap < grant.lifetime <= grant.renewable && margin < grant.renewable
            && !Live(After(Empty, ticks, 2, grant, margin), ticks[2].now)
  {
    var grant := Grant(gap + 1, gap + margin + 1);
    var ticks := [Tick(0, true, true), Tick(gap, true, true), Tick(2 * gap, true, true)];
    assert After(Empty, ticks, 0, grant, margin) == Empty;
    assert After(Empty, ticks, 1, grant, margin) == Holds(Ticket(0, gap + 1, Some(gap + margin + 1)));
    assert After(Empty, ticks, 2, grant, margin) == Holds(Ticket(gap, gap + margin + 1, Some(gap + margin + 1)));
  }

  /** Continuity holds if and only if the timer's gap does not exceed the reissue margin. */
  lemma ContinuityExactly(gap: int, margin: int)
    requires margin >= 0
    ensures Continuous(gap, margin) <==> gap <= margin
  {
    if gap <= margin {
      forall c: Cache, ticks: seq<Tick>, n: nat, grant: Grant, t: int |
        && 0 < n < |ticks| && Regular(ticks, gap) && LongLived(c, grant, margin)
        && gap < grant.lifetime <= grant.renewable && margin < grant.renewable
        && ticks[n - 1].now <= t <= ticks[n].now
        ensures Live(After(c, ticks, n, grant, margin), t)
      {
        Continuity(c, ticks, n, gap, grant, margin);
      }
    } else {
      GapBeyondMarginLosesTicket(gap, margin);
      var grant := Grant(gap + 1, gap + margin + 1);
      var ticks := [Tick(0, true, true), Tick(gap, true, true), Tick(2 * gap, true, true)];
      assert LongLived(Empty, grant, margin) && ticks[1].now <= ticks[2].now <= ticks[2].now;
    }
  }
}
