/**
 * The refresh-token ledger as a value: the lookup the refresh flow performs,
 * the rotation it writes, the bulk revocation of `RevokeTokenAsync`, and the
 * rules every write obeys (revocation is one-way, `IsUsed` is never set,
 * identity fields never change).
 */
module TokenLedger {
  import opened Common
  import opened Models

  /** The row the refresh flow accepts: same refresh string, same jti, not revoked. */
  predicate Accepts(row: RefreshToken, token: string, jti: string)
  {
    row.token == token && row.jwtId == jti && !row.isRevoked
  }

  /** The first row the refresh flow accepts, if any. */
  function FindActive(rows: seq<RefreshToken>, token: string, jti: string): (r: Option<nat>)
    ensures r.Some? ==> r.value < |rows| && Accepts(rows[r.value], token, jti)
    ensures r.None? <==> forall i :: 0 <= i < |rows| ==> !Accepts(rows[i], token, jti)
  {
    FirstIndex(rows, (row: RefreshToken) => Accepts(row, token, jti))
  }

  /** The row Login, Register and Refresh append for a freshly issued pair. */
  function NewRow(id: int, token: string, jti: string, userId: int, now: Time, lifetimeDays: int): (row: RefreshToken)
    ensures Fresh(row) && row.userId == userId && row.token == token && row.jwtId == jti
    ensures row.createdAt == now && row.expiryDate == now + lifetimeDays * SecondsPerDay
  {
    RefreshToken(id, token, jti, now, now + lifetimeDays * SecondsPerDay, false, false, None, userId)
  }

  /** A row as it is first written: not used, not revoked, never revoked. */
  predicate Fresh(row: RefreshToken)
  {
    !row.isUsed && !row.isRevoked && row.revokedAt.None?
  }

  /** Refresh's write: the accepted row is revoked (its `RevokedAt` left as it was) and a new row is appended. */
  function Rotate(rows: seq<RefreshToken>, k: nat, newRow: RefreshToken): (r: seq<RefreshToken>)
    requires k < |rows|
    ensures |r| == |rows| + 1 && r[|rows|] == newRow
    ensures r[k] == rows[k].(isRevoked := true)
    ensures forall i :: 0 <= i < |rows| && i != k ==> r[i] == rows[i]
  {
    rows[k := rows[k].(isRevoked := true)] + [newRow]
  }

  /** The rows `RevokeTokenAsync` selects: the user's unrevoked rows, narrowed to one jti when a non-empty one is given. */
  predicate Selected(row: RefreshToken, userId: int, jti: Option<string>)
  {
    row.userId == userId && !row.isRevoked && (jti.None? || jti.value == "" || row.jwtId == jti.value)
  }

  function RevokeRow(row: RefreshToken, now: Time): RefreshToken
  {
    row.(isRevoked := true, revokedAt := Some(now))
  }

  /** The ledger after `RevokeTokenAsync`: every selected row revoked and stamped, every other row as it was. */
  function RevokeSelected(rows: seq<RefreshToken>, userId: int, jti: Option<string>, now: Time): (r: seq<RefreshToken>)
    ensures |r| == |rows|
  {
    seq(|rows|, i requires 0 <= i < |rows| =>
      if Selected(rows[i], userId, jti) then RevokeRow(rows[i], now) else rows[i])
  }

  // ----- the one-way life of a row -----

  /** A row either stays as it is or goes from unrevoked to revoked, with nothing but `RevokedAt` changing beside. */
  predicate RowStep(a: RefreshToken, b: RefreshToken)
  {
    a == b || (!a.isRevoked && b == a.(isRevoked := true, revokedAt := b.revokedAt))
  }

  /** What every row written so far satisfies: never used, and stamped only if revoked. */
  predicate Settled(row: RefreshToken)
  {
    !row.isUsed && (!row.isRevoked ==> row.revokedAt.None?)
  }

  /** What any write to the ledger may do: change rows by `RowStep` and append settled rows. */
  predicate LedgerStep(before: seq<RefreshToken>, after: seq<RefreshToken>)
    ensures before == after ==> LedgerStep(before, after)
  {
    |before| <= |after| &&
    (forall i :: 0 <= i < |before| ==> RowStep(before[i], after[i])) &&
    (forall i :: |before| <= i < |after| ==> Settled(after[i]))
  }

  /** Any number of writes is again a write: lets the one-way rule extend over any run of operations. */
  lemma LedgerStepTransitive(a: seq<RefreshToken>, b: seq<RefreshToken>, c: seq<RefreshToken>)
    requires LedgerStep(a, b) && LedgerStep(b, c)
    ensures LedgerStep(a, c)
  {
    forall i | 0 <= i < |a| ensures RowStep(a[i], c[i]) {
      assert RowStep(a[i], b[i]) && RowStep(b[i], c[i]);
    }
    forall i | |a| <= i < |c| ensures Settled(c[i]) {
      if i < |b| {
        assert Settled(b[i]) && RowStep(b[i], c[i]);
      }
    }
  }

  /** Once revoked, a row never changes again and in particular never becomes unrevoked. */
  lemma RevokedIsFinal(before: seq<RefreshToken>, after: seq<RefreshToken>, i: nat)
    requires LedgerStep(before, after) && i < |before| && before[i].isRevoked
    ensures after[i] == before[i]
  {
    assert RowStep(before[i], after[i]);
  }

  /** No write ever sets `IsUsed`. */
  lemma NeverUsed(before: seq<RefreshToken>, after: seq<RefreshToken>)
    requires LedgerStep(before, after)
    requires forall i :: 0 <= i < |before| ==> !before[i].isUsed
    ensures forall i :: 0 <= i < |after| ==> !after[i].isUsed
  {
    forall i | 0 <= i < |after| ensures !after[i].isUsed {
      if i < |before| {
        assert RowStep(before[i], after[i]);
      }
    }
  }

  lemma AppendIsStep(rows: seq<RefreshToken>, row: RefreshToken)
    requires Fresh(row)
    ensures LedgerStep(rows, rows + [row])
  {
  }

  lemma RotateIsStep(rows: seq<RefreshToken>, k: nat, newRow: RefreshToken)
    requires k < |rows| && !rows[k].isRevoked && Fresh(newRow)
    ensures LedgerStep(rows, Rotate(rows, k, newRow))
  {
    var r := Rotate(rows, k, newRow);
    assert r[k] == rows[k].(isRevoked := true, revokedAt := r[k].revokedAt);
  }

  lemma RevokeSelectedIsStep(rows: seq<RefreshToken>, userId: int, jti: Option<string>, now: Time)
    ensures LedgerStep(rows, RevokeSelected(rows, userId, jti, now))
  {
    var r := RevokeSelected(rows, userId, jti, now);
    forall i | 0 <= i < |rows| ensures RowStep(rows[i], r[i]) {
      if Selected(rows[i], userId, jti) {
        assert r[i] == rows[i].(isRevoked := true, revokedAt := r[i].revokedAt);
      }
    }
  }

  // ----- what RevokeTokenAsync does -----

  /**
   * Exactly the selected rows become revoked and are stamped with `now`;
   * rows already revoked keep their old stamp and other users' rows are untouched.
   */
  lemma RevokeSelectedExact(rows: seq<RefreshToken>, userId: int, jti: Option<string>, now: Time, i: nat)
    requires i < |rows|
    ensures var r := RevokeSelected(rows, userId, jti, now);
      r[i].isRevoked == (rows[i].isRevoked || Selected(rows[i], userId, jti)) &&
      r[i].revokedAt == (if Selected(rows[i], userId, jti) then Some(now) else rows[i].revokedAt) &&
      (rows[i].userId != userId ==> r[i] == rows[i]) &&
      (rows[i].isRevoked ==> r[i] == rows[i]) &&
      r[i].token == rows[i].token && r[i].jwtId == rows[i].jwtId && r[i].userId == rows[i].userId
  {
  }

  /** Without a jti, every row of the user is revoked afterwards. */
  lemma RevokeAllCoversUser(rows: seq<RefreshToken>, userId: int, now: Time)
    ensures var r := RevokeSelected(rows, userId, None, now);
      forall i :: 0 <= i < |r| && r[i].userId == userId ==> r[i].isRevoked
  {
  }

  /** Revoking twice is revoking once: a retried logout changes nothing more. */
  lemma RevokeSelectedIdempotent(rows: seq<RefreshToken>, userId: int, jti: Option<string>, now: Time, later: Time)
    ensures var once := RevokeSelected(rows, userId, jti, now);
      RevokeSelected(once, userId, jti, later) == once
  {
    var once := RevokeSelected(rows, userId, jti, now);
    var twice := RevokeSelected(once, userId, jti, later);
    forall i | 0 <= i < |once| ensures twice[i] == once[i] {
      assert !Selected(once[i], userId, jti);
    }
  }

  /** After revoking all of a user's rows, no refresh can be accepted on a row of that user. */
  lemma NoRefreshAfterRevokeAll(rows: seq<RefreshToken>, userId: int, now: Time, token: string, jti: string)
    ensures var r := RevokeSelected(rows, userId, None, now);
      var found := FindActive(r, token, jti);
      found.Some? ==> r[found.value].userId != userId
  {
    RevokeAllCoversUser(rows, userId, now);
  }

  // ----- rotation and replay -----

  /** Refresh strings are distinct across the ledger. The store does not enforce this; it follows from fresh random strings. */
  predicate TokensDistinct(rows: seq<RefreshToken>)
  {
    forall i, j :: 0 <= i < j < |rows| ==> rows[i].token != rows[j].token
  }

  predicate TokenUnseen(rows: seq<RefreshToken>, token: string)
  {
    forall i :: 0 <= i < |rows| ==> rows[i].token != token
  }

  lemma RotateKeepsDistinct(rows: seq<RefreshToken>, k: nat, newRow: RefreshToken)
    requires k < |rows| && TokensDistinct(rows) && TokenUnseen(rows, newRow.token)
    ensures TokensDistinct(Rotate(rows, k, newRow))
  {
  }

  lemma AppendKeepsDistinct(rows: seq<RefreshToken>, row: RefreshToken)
    requires TokensDistinct(rows) && TokenUnseen(rows, row.token)
    ensures TokensDistinct(rows + [row])
  {
  }

  lemma RevokeKeepsDistinct(rows: seq<RefreshToken>, userId: int, jti: Option<string>, now: Time)
    requires TokensDistinct(rows)
    ensures TokensDistinct(RevokeSelected(rows, userId, jti, now))
  {
  }

  /**
   * Replaying a refresh pair after it was rotated fails: the accepted row is
   * now revoked and, refresh strings being distinct, no other row carries it.
   */
  lemma ReplayFailsAfterRotate(rows: seq<RefreshToken>, token: string, jti: string, newRow: RefreshToken)
    requires TokensDistinct(rows) && TokenUnseen(rows, newRow.token)
    requires FindActive(rows, token, jti).Some?
    ensures FindActive(Rotate(rows, FindActive(rows, token, jti).value, newRow), token, jti).None?
  {
    var k := FindActive(rows, token, jti).value;
    var r := Rotate(rows, k, newRow);
    forall i | 0 <= i < |r| ensures !Accepts(r[i], token, jti) {
      if i < |rows| && i != k {
        assert rows[i].token != rows[k].token;
      }
    }
  }

  /** A freshly issued pair is accepted right away, at the new row, when its refresh string is new to the ledger. */
  lemma IssuedPairIsAccepted(rows: seq<RefreshToken>, row: RefreshToken)
    requires Fresh(row) && TokenUnseen(rows, row.token)
    ensures FindActive(rows + [row], row.token, row.jwtId) == Some(|rows|)
  {
    var r := rows + [row];
    assert Accepts(r[|rows|], row.token, row.jwtId);
    assert forall i :: 0 <= i < |rows| ==> r[i] == rows[i];
  }

  /**
   * Without distinct refresh strings the replay can succeed: two unrevoked
   * rows with the same string and jti let the same pair be refreshed twice.
   */
  lemma ReplaySucceedsOnDuplicateRows()
    ensures var row := NewRow(1, "r", "j", 7, 0, 7);
      var rows := [row, row.(id := 2)];
      var after := Rotate(rows, 0, NewRow(3, "r2", "j2", 7, 0, 7));
      FindActive(rows, "r", "j") == Some(0) && FindActive(after, "r", "j") == Some(1)
  {
    var row := NewRow(1, "r", "j", 7, 0, 7);
    var rows := [row, row.(id := 2)];
    var after := Rotate(rows, 0, NewRow(3, "r2", "j2", 7, 0, 7));
    assert Accepts(after[1], "r", "j") && !Accepts(after[0], "r", "j");
  }
}
