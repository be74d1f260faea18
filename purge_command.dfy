/** `passport:purge`: delete revoked and/or long-expired rows from the three token tables. */
module PurgeCommand {
  import opened Schema
  import Purging
  import Tokens
  import AuthCodes
  import RefreshTokens

  /** Which of the three deletes a run issues. */
  datatype Mode = RevokedOrExpired | RevokedOnly | ExpiredOnly

  /** Rows are purged this many days after they expire. */
  const RetentionDays: int := 7

  /** The branch `handle` takes for the `--revoked` and `--expired` flags. */
  function SelectMode(revoked: bool, expired: bool): (m: Mode)
    ensures m == RevokedOrExpired <==> revoked == expired
    ensures m == RevokedOnly <==> revoked && !expired
    ensures m == ExpiredOnly <==> !revoked && expired
  {
    if (revoked && expired) || (!revoked && !expired) then RevokedOrExpired
    else if revoked then RevokedOnly
    else ExpiredOnly
  }

  /** `Carbon::now()->subDays(7)`. */
  function Cutoff(now: int): (cutoff: int)
    ensures now - cutoff == RetentionDays * Purging.SecondsPerDay
  {
    now - RetentionDays * Purging.SecondsPerDay
  }

  /** The delete a mode issues on one table: it only removes rows; in every mode it keeps an
      unrevoked row expiring at or after the cutoff and removes a revoked row that expired
      before the cutoff's day began. */
  function Purge<K(!new), V>(rows: map<K, V>, mode: Mode, cutoff: int, revoked: V -> bool, expiresAt: V -> int)
    : (r: map<K, V>)
    ensures forall k :: k in r ==> k in rows && r[k] == rows[k]
    ensures forall k :: k in rows && !revoked(rows[k]) && expiresAt(rows[k]) >= cutoff ==> k in r
    ensures forall k :: k in rows && revoked(rows[k]) && expiresAt(rows[k]) < Purging.StartOfDay(cutoff) ==> k !in r
  {
    Purging.StartOfDayBounds(cutoff);
    assert forall k :: k in rows ==> (Purging.Day(expiresAt(rows[k])) >= Purging.Day(cutoff)
                                      <==> expiresAt(rows[k]) >= Purging.StartOfDay(cutoff)) by {
      forall k | k in rows
        ensures Purging.Day(expiresAt(rows[k])) >= Purging.Day(cutoff) <==> expiresAt(rows[k]) >= Purging.StartOfDay(cutoff)
      {
        Purging.DayAtLeast(expiresAt(rows[k]), cutoff);
      }
    }
    match mode
    case RevokedOrExpired => Purging.DeleteRevokedOrExpiredPriorTo(rows, revoked, expiresAt, cutoff)
    case RevokedOnly => Purging.DeleteRevoked(rows, revoked)
    case ExpiredOnly => Purging.DeleteExpiredPriorTo(rows, expiresAt, cutoff)
  }

  /** What each mode keeps: `--revoked` keeps every unrevoked row however old, `--expired` every
      row expiring at or after the cutoff even when revoked; no mode alters a kept row. */
  lemma PurgeKeeps<K(!new), V>(rows: map<K, V>, cutoff: int, revoked: V -> bool, expiresAt: V -> int)
    ensures forall k :: k in Purge(rows, RevokedOnly, cutoff, revoked, expiresAt) <==> k in rows && !revoked(rows[k])
    ensures forall k :: k in Purge(rows, ExpiredOnly, cutoff, revoked, expiresAt) <==> k in rows && expiresAt(rows[k]) >= cutoff
    ensures forall k :: k in Purge(rows, RevokedOrExpired, cutoff, revoked, expiresAt)
                        <==> k in rows && !revoked(rows[k]) && expiresAt(rows[k]) >= Purging.StartOfDay(cutoff)
    ensures forall mode, k :: k in Purge(rows, mode, cutoff, revoked, expiresAt) ==> Purge(rows, mode, cutoff, revoked, expiresAt)[k] == rows[k]
  {
    forall k | k in rows {
      Purging.DayAtLeast(expiresAt(rows[k]), cutoff);
    }
  }

  /** A row that expired eight days ago goes in every mode that purges by expiry; an unrevoked
      row that expired six days ago stays in every mode. */
  lemma SevenDayWindow<K(!new), V>(rows: map<K, V>, now: int, revoked: V -> bool, expiresAt: V -> int, old8: K, recent6: K)
    requires old8 in rows && expiresAt(rows[old8]) == now - 8 * Purging.SecondsPerDay
    requires recent6 in rows && !revoked(rows[recent6]) && expiresAt(rows[recent6]) == now - 6 * Purging.SecondsPerDay
    ensures old8 !in Purge(rows, ExpiredOnly, Cutoff(now), revoked, expiresAt)
    ensures old8 !in Purge(rows, RevokedOrExpired, Cutoff(now), revoked, expiresAt)
    ensures forall mode :: recent6 in Purge(rows, mode, Cutoff(now), revoked, expiresAt)
  {
    Purging.StartOfDayBounds(Cutoff(now));
    Purging.DayAtLeast(expiresAt(rows[old8]), Cutoff(now));
    Purging.DayAtLeast(expiresAt(rows[recent6]), Cutoff(now));
  }

  /** A second run with the same clock and flags deletes nothing. */
  lemma PurgeIsIdempotent<K(!new), V>(rows: map<K, V>, mode: Mode, cutoff: int, revoked: V -> bool, expiresAt: V -> int)
    ensures Purge(Purge(rows, mode, cutoff, revoked, expiresAt), mode, cutoff, revoked, expiresAt)
         == Purge(rows, mode, cutoff, revoked, expiresAt)
  {
    Purging.PurgesAreIdempotent(rows, revoked, expiresAt, cutoff);
  }

  /** `handle`: one delete, chosen by the flags, on tokens, auth codes and refresh tokens. */
  method Handle(db: Database, now: int, revoked: bool, expired: bool)
    requires db.Valid()
    modifies db`tokens, db`authCodes, db`refreshTokens
    ensures db.Valid()
    ensures db.tokens == Purge(old(db.tokens), SelectMode(revoked, expired), Cutoff(now), TokenRevoked, TokenExpiresAt)
    ensures db.authCodes == Purge(old(db.authCodes), SelectMode(revoked, expired), Cutoff(now), AuthCodeRevoked, AuthCodeExpiresAt)
    ensures db.refreshTokens
         == Purge(old(db.refreshTokens), SelectMode(revoked, expired), Cutoff(now), RefreshTokenRevoked, RefreshTokenExpiresAt)
  {
    var cutoff := now - RetentionDays * Purging.SecondsPerDay;
    if (revoked && expired) || (!revoked && !expired) {
      Tokens.DeleteRevokedOrExpiredPriorTo(db, cutoff);
      AuthCodes.DeleteRevokedOrExpiredPriorTo(db, cutoff);
      RefreshTokens.DeleteRevokedOrExpiredPriorTo(db, cutoff);
    } else if revoked {
      Tokens.DeleteRevoked(db);
      AuthCodes.DeleteRevoked(db);
      RefreshTokens.DeleteRevoked(db);
    } else if expired {
      Tokens.DeleteExpiredPriorTo(db, cutoff);
      AuthCodes.DeleteExpiredPriorTo(db, cutoff);
      RefreshTokens.DeleteExpiredPriorTo(db, cutoff);
    }
  }
}
