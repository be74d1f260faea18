/**
  The three purge deletes that Token, AuthCode and RefreshToken each define with the same
  query text, written once over any table whose rows have a `revoked` flag and an
  `expires_at` timestamp.
 */
module Purging {

  const SecondsPerDay: int := 86400

  /** The calendar day of a timestamp, as the database's DATE() sees it (one fixed time zone). */
  function Day(t: int): int
  {
    t / SecondsPerDay
  }

  /** The first second of the day `t` falls in. */
  function StartOfDay(t: int): int
  {
    Day(t) * SecondsPerDay
  }

  /** `where('revoked', 1)->delete()`. */
  function DeleteRevoked<K(!new), V>(rows: map<K, V>, revoked: V -> bool): (r: map<K, V>)
    ensures forall k :: k in r <==> k in rows && !revoked(rows[k])
    ensures forall k :: k in r ==> r[k] == rows[k]
  {
    map k | k in rows && !revoked(rows[k]) :: rows[k]
  }

  /** `where('expires_at', '<', cutoff)->delete()`: a strict comparison of whole timestamps. */
  function DeleteExpiredPriorTo<K(!new), V>(rows: map<K, V>, expiresAt: V -> int, cutoff: int): (r: map<K, V>)
    ensures forall k :: k in r <==> k in rows && expiresAt(rows[k]) >= cutoff
    ensures forall k :: k in r ==> r[k] == rows[k]
  {
    map k | k in rows && expiresAt(rows[k]) >= cutoff :: rows[k]
  }

  /**
    `where('revoked', 1)->orWhereDate('expires_at', '<', cutoff)->delete()`: a row goes when
    it is revoked or when the DAY of its expiry is before the day of the cutoff.
   */
  function DeleteRevokedOrExpiredPriorTo<K(!new), V>(
    rows: map<K, V>, revoked: V -> bool, expiresAt: V -> int, cutoff: int): (r: map<K, V>)
    ensures forall k :: k in r <==> k in rows && !revoked(rows[k]) && Day(expiresAt(rows[k])) >= Day(cutoff)
    ensures forall k :: k in r ==> r[k] == rows[k]
  {
    map k | k in rows && !revoked(rows[k]) && Day(expiresAt(rows[k])) >= Day(cutoff) :: rows[k]
  }

  /** A timestamp lies in the day that starts at its `StartOfDay`. */
  lemma StartOfDayBounds(t: int)
    ensures StartOfDay(t) <= t < StartOfDay(t) + SecondsPerDay
  {
    assert t == Day(t) * SecondsPerDay + t % SecondsPerDay;
    assert 0 <= t % SecondsPerDay < SecondsPerDay;
  }

  /** A day comparison is a timestamp comparison with the start of the later day. */
  lemma DayAtLeast(t: int, cutoff: int)
    ensures Day(t) >= Day(cutoff) <==> t >= StartOfDay(cutoff)
  {
    var d := Day(cutoff);
    assert t == Day(t) * SecondsPerDay + t % SecondsPerDay;
    assert 0 <= t % SecondsPerDay < SecondsPerDay;
    if Day(t) >= d {
      assert Day(t) * SecondsPerDay >= d * SecondsPerDay;
    } else {
      assert Day(t) * SecondsPerDay <= (d - 1) * SecondsPerDay;
    }
  }

  /**
    The combined purge is the revoked purge applied after the expiry purge, with the cutoff
    moved back to the start of its day: it is NOT the union of the two single purges at the
    same cutoff, whenever a row expired earlier on the cutoff's own day.
   */
  lemma RevokedOrExpiredIsUnionAtStartOfDay<K(!new), V>(
    rows: map<K, V>, revoked: V -> bool, expiresAt: V -> int, cutoff: int)
    ensures DeleteRevokedOrExpiredPriorTo(rows, revoked, expiresAt, cutoff)
         == DeleteRevoked(DeleteExpiredPriorTo(rows, expiresAt, StartOfDay(cutoff)), revoked)
  {
    var combined := DeleteRevokedOrExpiredPriorTo(rows, revoked, expiresAt, cutoff);
    var chained := DeleteRevoked(DeleteExpiredPriorTo(rows, expiresAt, StartOfDay(cutoff)), revoked);
    forall k | k in rows ensures k in combined <==> k in chained {
      DayAtLeast(expiresAt(rows[k]), cutoff);
    }
  }

  /** Every row the combined purge removes, one of the two single purges removes too. */
  lemma RevokedOrExpiredRemovesLess<K(!new), V>(
    rows: map<K, V>, revoked: V -> bool, expiresAt: V -> int, cutoff: int, k: K)
    requires k in rows
    requires k !in DeleteRevokedOrExpiredPriorTo(rows, revoked, expiresAt, cutoff)
    ensures k !in DeleteRevoked(rows, revoked) || k !in DeleteExpiredPriorTo(rows, expiresAt, cutoff)
  {
    DayAtLeast(expiresAt(rows[k]), cutoff);
    DayAtLeast(cutoff, cutoff);
  }

  /** A row that expired earlier on the cutoff's own day survives the combined purge although
      the expiry purge alone removes it. */
  lemma SameDayExpirySurvivesCombined<K(!new), V>(
    rows: map<K, V>, revoked: V -> bool, expiresAt: V -> int, cutoff: int, k: K)
    requires k in rows && !revoked(rows[k])
    requires StartOfDay(cutoff) <= expiresAt(rows[k]) < cutoff
    ensures k in DeleteRevokedOrExpiredPriorTo(rows, revoked, expiresAt, cutoff)
    ensures k !in DeleteExpiredPriorTo(rows, expiresAt, cutoff)
  {
    DayAtLeast(expiresAt(rows[k]), cutoff);
  }

  /** Each purge is idempotent: a second run at the same cutoff deletes nothing. */
  lemma PurgesAreIdempotent<K(!new), V>(
    rows: map<K, V>, revoked: V -> bool, expiresAt: V -> int, cutoff: int)
    ensures DeleteRevoked(DeleteRevoked(rows, revoked), revoked) == DeleteRevoked(rows, revoked)
    ensures DeleteExpiredPriorTo(DeleteExpiredPriorTo(rows, expiresAt, cutoff), expiresAt, cutoff)
         == DeleteExpiredPriorTo(rows, expiresAt, cutoff)
    ensures DeleteRevokedOrExpiredPriorTo(
              DeleteRevokedOrExpiredPriorTo(rows, revoked, expiresAt, cutoff), revoked, expiresAt, cutoff)
         == DeleteRevokedOrExpiredPriorTo(rows, revoked, expiresAt, cutoff)
  {
  }
}
