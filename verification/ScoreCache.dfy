/** The one-hour cache of dispatch scores (dispatch-scoring.service.ts). */
module ScoreCache {
  import opened Options

  const HOUR_MS := 3_600_000

  /** An overall score row; rows of other score types are never read here. */
  datatype Row = Row(driverId: string, score: real, lastCalculatedAt: int, validUntil: int)

  datatype Outcome = Score(value: real) | NotFound

  /** The index of the row of a driver that was calculated last. */
  function Latest(rows: seq<Row>, driverId: string): (r: Option<nat>)
    ensures r.Some? ==> r.value < |rows| && rows[r.value].driverId == driverId
    ensures r.None? ==> forall i :: 0 <= i < |rows| ==> rows[i].driverId != driverId
    ensures r.Some? ==>
      forall i :: 0 <= i < |rows| && rows[i].driverId == driverId ==>
        rows[i].lastCalculatedAt <= rows[r.value].lastCalculatedAt
  {
    if rows == [] then None
    else
      var n := |rows| - 1;
      var before := Latest(rows[..n], driverId);
      if rows[n].driverId == driverId && (before.None? || rows[n].lastCalculatedAt > rows[before.value].lastCalculatedAt)
      then Some(n) else before
  }

  /** Rows that a run can leave behind: valid for an hour, and written only when the row before had expired. */
  ghost predicate Coherent(rows: seq<Row>, clock: int) {
    && (forall i :: 0 <= i < |rows| ==>
          rows[i].validUntil == rows[i].lastCalculatedAt + HOUR_MS && rows[i].lastCalculatedAt <= clock)
    && (forall i, k :: 0 <= i < k < |rows| && rows[i].driverId == rows[k].driverId ==>
          rows[i].validUntil <= rows[k].lastCalculatedAt)
  }

  lemma StaysCoherent(rows: seq<Row>, clock: int, now: int)
    requires Coherent(rows, clock) && clock <= now
    ensures Coherent(rows, now)
  {
  }

  /** At most one row of a driver is live, and it is the one calculated last. */
  lemma AtMostOneLive(rows: seq<Row>, clock: int, now: int, i: nat)
    requires Coherent(rows, clock) && clock <= now
    requires i < |rows| && rows[i].validUntil > now
    ensures Latest(rows, rows[i].driverId) == Some(i)
    ensures forall k :: 0 <= k < |rows| && rows[k].driverId == rows[i].driverId && rows[k].validUntil > now ==> k == i
  {
  }

  /** The table after saving a freshly calculated score. */
  function Saved(rows: seq<Row>, driverId: string, score: real, now: int): seq<Row> {
    var row := Row(driverId, score, now, now + HOUR_MS);
    var latest := Latest(rows, driverId);
    if latest.Some? && rows[latest.value].validUntil > now then rows[latest.value := row] else rows + [row]
  }

  /** What `getCurrentScore` answers; `calculated` holds the score that a calculation gives each driver with statistics. */
  function Answer(rows: seq<Row>, driverId: string, calculated: map<string, real>, now: int): Outcome {
    var latest := Latest(rows, driverId);
    if latest.Some? && rows[latest.value].validUntil >= now then Score(rows[latest.value].score)
    else if driverId in calculated then Score(calculated[driverId])
    else NotFound
  }

  /** The instant at which the single and the batch lookup disagree about a row. */
  predicate AtExpiry(rows: seq<Row>, driverId: string, now: int) {
    var latest := Latest(rows, driverId);
    latest.Some? && rows[latest.value].validUntil == now
  }

  predicate Live(rows: seq<Row>, driverId: string, now: int) {
    var latest := Latest(rows, driverId);
    latest.Some? && rows[latest.value].validUntil > now
  }

  /** Saving keeps the table coherent, and the saved score is then the driver's live one; nobody else is affected. */
  lemma SavedScore(rows: seq<Row>, clock: int, driverId: string, score: real, now: int)
    requires Coherent(rows, clock) && clock <= now
    ensures
      var after := Saved(rows, driverId, score, now);
      && Coherent(after, now)
      && Live(after, driverId, now) && after[Latest(after, driverId).value].score == score
  {
    var after := Saved(rows, driverId, score, now);
    var latest := Latest(rows, driverId);
    var i := if latest.Some? && rows[latest.value].validUntil > now then latest.value else |rows|;
    assert Coherent(after, now);
    AtMostOneLive(after, now, now, i);
  }

  lemma {:induction false} OthersUntouched(rows: seq<Row>, driverId: string, score: real, now: int, other: string)
    requires other != driverId
    ensures
      var after := Saved(rows, driverId, score, now);
      Latest(after, other) == Latest(rows, other) &&
      (Latest(rows, other).Some? ==> after[Latest(rows, other).value] == rows[Latest(rows, other).value])
  {
    var row := Row(driverId, score, now, now + HOUR_MS);
    var latest := Latest(rows, driverId);
    if latest.Some? && rows[latest.value].validUntil > now {
      LatestOfOther(rows, latest.value, row, other);
    } else {
      assert (rows + [row])[..|rows|] == rows;
    }
  }

  lemma {:induction false} LatestOfOther(rows: seq<Row>, k: nat, row: Row, other: string)
    requires k < |rows| && rows[k].driverId == row.driverId != other
    ensures Latest(rows[k := row], other) == Latest(rows, other)
  {
    var n := |rows| - 1;
    if k < n {
      assert rows[k := row][..n] == rows[..n][k := row];
      LatestOfOther(rows[..n], k, row, other);
    } else {
      assert rows[k := row][..n] == rows[..n];
    }
  }

  // --- the batch lookup ---

  function BatchAnswer(rows: seq<Row>, driverId: string, calculated: map<string, real>, now: int): real {
    if Live(rows, driverId, now) then rows[Latest(rows, driverId).value].score
    else if driverId in calculated then calculated[driverId]
    else 0.0
  }

  /**
   * For a driver with statistics the two lookups give the same score, unless the instant is exactly the end of the
   * row's validity and a calculation would give another score than the row holds. Without statistics the batch
   * answers zero where the single lookup fails.
   */
  lemma LookupsAgree(rows: seq<Row>, driverId: string, calculated: map<string, real>, now: int)
    ensures driverId in calculated ==>
      (Answer(rows, driverId, calculated, now) == Score(BatchAnswer(rows, driverId, calculated, now)) <==>
         !(AtExpiry(rows, driverId, now) && rows[Latest(rows, driverId).value].score != calculated[driverId]))
    ensures Answer(rows, driverId, calculated, now) == NotFound ==> BatchAnswer(rows, driverId, calculated, now) == 0.0
  {
  }

  // --- the same in terms of the rows ---

  /** In a coherent table the answer comes from the driver's row that is valid now, or else is calculated. */
  lemma AnswerFromRows(rows: seq<Row>, clock: int, driverId: string, calculated: map<string, real>, now: int)
    requires Coherent(rows, clock) && clock <= now
    ensures forall i :: 0 <= i < |rows| && rows[i].driverId == driverId && rows[i].validUntil > now ==>
              Answer(rows, driverId, calculated, now) == Score(rows[i].score)
    ensures forall i | 0 <= i < |rows| && rows[i].driverId == driverId && rows[i].validUntil == now &&
                       (forall k :: i < k < |rows| ==> rows[k].driverId != driverId) ::
              Answer(rows, driverId, calculated, now) == Score(rows[i].score)
    ensures (forall i :: 0 <= i < |rows| && rows[i].driverId == driverId ==> rows[i].validUntil < now) ==>
              Answer(rows, driverId, calculated, now) ==
              if driverId in calculated then Score(calculated[driverId]) else NotFound
  {
    forall i | 0 <= i < |rows| && rows[i].driverId == driverId && rows[i].validUntil > now
      ensures Latest(rows, driverId) == Some(i)
    {
      AtMostOneLive(rows, clock, now, i);
    }
  }

  lemma BatchAnswerFromRows(rows: seq<Row>, clock: int, driverId: string, calculated: map<string, real>, now: int)
    requires Coherent(rows, clock) && clock <= now
    ensures forall i :: 0 <= i < |rows| && rows[i].driverId == driverId && rows[i].validUntil > now ==>
              BatchAnswer(rows, driverId, calculated, now) == rows[i].score
    ensures (forall i :: 0 <= i < |rows| && rows[i].driverId == driverId ==> rows[i].validUntil <= now) ==>
              BatchAnswer(rows, driverId, calculated, now) ==
              if driverId in calculated then calculated[driverId] else 0.0
  {
    forall i | 0 <= i < |rows| && rows[i].driverId == driverId && rows[i].validUntil > now
      ensures Latest(rows, driverId) == Some(i)
    {
      AtMostOneLive(rows, clock, now, i);
    }
  }

  /** A score is saved for an hour, over the driver's live row if there is one and else in a new row. */
  lemma SavedInRows(rows: seq<Row>, clock: int, driverId: string, score: real, now: int)
    requires Coherent(rows, clock) && clock <= now
    ensures var row := Row(driverId, score, now, now + 3_600_000);
            && (forall i :: 0 <= i < |rows| && rows[i].driverId == driverId && rows[i].validUntil > now ==>
                  Saved(rows, driverId, score, now) == rows[i := row])
            && ((forall i :: 0 <= i < |rows| && rows[i].driverId == driverId ==> rows[i].validUntil <= now) ==>
                  Saved(rows, driverId, score, now) == rows + [row])
  {
    forall i | 0 <= i < |rows| && rows[i].driverId == driverId && rows[i].validUntil > now
      ensures Latest(rows, driverId) == Some(i)
    {
      AtMostOneLive(rows, clock, now, i);
    }
  }

  /** The batch lookup leaves the calculated score of each listed driver that had no live row. */
  lemma {:induction false} SavedAllSaves(
    rows: seq<Row>, cached: set<string>, driverIds: seq<string>, calculated: map<string, real>, now: int, driverId: string)
    requires driverId in driverIds && driverId !in cached && driverId in calculated
    ensures Row(driverId, calculated[driverId], now, now + 3_600_000) in SavedAll(rows, cached, driverIds, calculated, now)
  {
    var n := |driverIds| - 1;
    var before, last := SavedAll(rows, cached, driverIds[..n], calculated, now), driverIds[n];
    var row := Row(driverId, calculated[driverId], now, now + 3_600_000);
    assert driverIds == driverIds[..n] + [last];
    if last == driverId {
      SavedIsThere(before, driverId, calculated[driverId], now);
    } else {
      SavedAllSaves(rows, cached, driverIds[..n], calculated, now, driverId);
      if last !in cached && last in calculated {
        OthersStay(before, last, calculated[last], now, row);
      }
    }
  }

  lemma SavedIsThere(rows: seq<Row>, driverId: string, score: real, now: int)
    ensures Row(driverId, score, now, now + 3_600_000) in Saved(rows, driverId, score, now)
  {
    var latest := Latest(rows, driverId);
    var i := if latest.Some? && rows[latest.value].validUntil > now then latest.value else |rows|;
    assert Saved(rows, driverId, score, now)[i] == Row(driverId, score, now, now + 3_600_000);
  }

  lemma OthersStay(rows: seq<Row>, driverId: string, score: real, now: int, row: Row)
    requires row in rows && row.driverId != driverId
    ensures row in Saved(rows, driverId, score, now)
  {
    var i :| 0 <= i < |rows| && rows[i] == row;
    assert Saved(rows, driverId, score, now)[i] == row;
  }

  /** The table after the batch lookup, which saves a score for each listed driver that had no live row. */
  function SavedAll(
      rows: seq<Row>, cached: set<string>, driverIds: seq<string>, calculated: map<string, real>, now: int): seq<Row>
  {
    if driverIds == [] then rows
    else
      var before, driverId := SavedAll(rows, cached, driverIds[..|driverIds| - 1], calculated, now), driverIds[|driverIds| - 1];
      if driverId in cached || driverId !in calculated then before
      else Saved(before, driverId, calculated[driverId], now)
  }

  class DispatchScores {
    var rows: seq<Row>

    constructor ()
      ensures rows == []
    {
      rows := [];
    }

    method CreateOrUpdateDispatchScore(driverId: string, score: real, now: int)
      modifies this
      ensures rows == Saved(old(rows), driverId, score, now)
    {
      var validUntil := now + HOUR_MS;
      var existing := Latest(rows, driverId);
      if existing.Some? && rows[existing.value].validUntil > now {
        rows := rows[existing.value := Row(driverId, score, now, validUntil)];
      } else {
        rows := rows + [Row(driverId, score, now, validUntil)];
      }
    }

    method GetCurrentScore(driverId: string, calculated: map<string, real>, ghost clock: int, now: int)
      returns (r: Outcome)
      requires Coherent(rows, clock) && clock <= now
      modifies this
      ensures r == Answer(old(rows), driverId, calculated, now)
      ensures rows == if Live(old(rows), driverId, now) || AtExpiry(old(rows), driverId, now) || driverId !in calculated
                      then old(rows) else Saved(old(rows), driverId, calculated[driverId], now)
      ensures Coherent(rows, now)
    {
      var score := Latest(rows, driverId);
      if score.None? || rows[score.value].validUntil < now {
        if driverId !in calculated {
          return NotFound;
        }
        SavedScore(rows, clock, driverId, calculated[driverId], now);
        CreateOrUpdateDispatchScore(driverId, calculated[driverId], now);
        return Score(calculated[driverId]);
      }
      return Score(rows[score.value].score);
    }

    method GetCurrentScores(driverIds: seq<string>, calculated: map<string, real>, ghost clock: int, now: int)
      returns (result: map<string, real>)
      requires Coherent(rows, clock) && clock <= now
      modifies this
      ensures result.Keys == set d | d in driverIds
      ensures forall d :: d in driverIds ==> result[d] == BatchAnswer(old(rows), d, calculated, now)
      ensures rows == SavedAll(old(rows), (set d | d in driverIds && Live(old(rows), d, now)), driverIds, calculated, now)
      ensures Coherent(rows, now)
    {
      hide Coherent, Saved, Latest;
      StaysCoherent(rows, clock, now);
      var scoreMap := LiveScores(driverIds, clock, now);
      result := map[];
      for i := 0 to |driverIds|
        invariant result.Keys == set d | d in driverIds[..i]
        invariant forall d :: d in driverIds[..i] ==> result[d] == BatchAnswer(old(rows), d, calculated, now)
        invariant rows == SavedAll(old(rows), scoreMap.Keys, driverIds[..i], calculated, now)
        invariant Coherent(rows, now)
      {
        var driverId := driverIds[i];
        assert driverIds[..i + 1] == driverIds[..i] + [driverId];
        if driverId in scoreMap {
          result := result[driverId := scoreMap[driverId]];
        } else if driverId in calculated {
          SavedScore(rows, now, driverId, calculated[driverId], now);
          CreateOrUpdateDispatchScore(driverId, calculated[driverId], now);
          result := result[driverId := calculated[driverId]];
        } else {
          result := result[driverId := 0.0];
        }
      }
      assert driverIds[..|driverIds|] == driverIds;
    }

    /** The query for unexpired rows; the first row found for a driver is kept, and there is only one. */
    method LiveScores(driverIds: seq<string>, ghost clock: int, now: int) returns (scoreMap: map<string, real>)
      requires Coherent(rows, clock) && clock <= now
      ensures scoreMap.Keys == set d | d in driverIds && Live(rows, d, now)
      ensures forall d :: d in scoreMap ==> scoreMap[d] == rows[Latest(rows, d).value].score
    {
      hide Coherent;
      scoreMap := map[];
      for i := 0 to |rows|
        invariant forall d :: d in scoreMap ==>
          d in driverIds && Live(rows, d, now) && scoreMap[d] == rows[Latest(rows, d).value].score
        invariant forall k :: 0 <= k < i && rows[k].validUntil > now && rows[k].driverId in driverIds ==>
          rows[k].driverId in scoreMap
      {
        var score := rows[i];
        if score.validUntil > now && score.driverId in driverIds {
          AtMostOneLive(rows, clock, now, i);
          if score.driverId !in scoreMap {
            scoreMap := scoreMap[score.driverId := score.score];
          }
        }
      }
    }
  }
}
