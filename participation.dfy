/**
 * The per-translator aggregation of app/api/analytics/route.ts: a map from
 * translator id to counters, filled row by row, whose values are then
 * sorted by number of auctions, largest first.
 */
module Participation {
  import opened Wrappers

  /** The joined `translators` record of a participant row; it may be null. */
  datatype TranslatorInfo = TranslatorInfo(email: string, firstName: string, lastName: string)

  datatype ParticipantStat = ParticipantStat(translatorId: string, isWinner: bool, translator: Option<TranslatorInfo>)

  datatype TranslatorStats = TranslatorStats(email: string, name: string, totalAuctions: nat, wins: nat)

  // ---------------------------------------------------------------------------
  // The specification: counts over the rows, by translator id

  /** The number of rows for translator `id`. */
  function Count(rows: seq<ParticipantStat>, id: string): nat {
    if |rows| == 0 then 0
    else Count(rows[..|rows| - 1], id) + (if rows[|rows| - 1].translatorId == id then 1 else 0)
  }

  /** The number of winning rows for translator `id`. */
  function Wins(rows: seq<ParticipantStat>, id: string): (w: nat)
    ensures w <= Count(rows, id)
  {
    if |rows| == 0 then 0
    else Wins(rows[..|rows| - 1], id) + (if rows[|rows| - 1].translatorId == id && rows[|rows| - 1].isWinner then 1 else 0)
  }

  /** The translator ids in the order they first appear. */
  function FirstSeen(rows: seq<ParticipantStat>): (ids: seq<string>)
    ensures forall j, k :: 0 <= j < k < |ids| ==> ids[j] != ids[k]
    ensures forall id :: id in ids <==> exists i :: 0 <= i < |rows| && rows[i].translatorId == id
  {
    if |rows| == 0 then []
    else
      var before := FirstSeen(rows[..|rows| - 1]);
      var id := rows[|rows| - 1].translatorId;
      assert forall i :: 0 <= i < |rows| - 1 ==> rows[..|rows| - 1][i] == rows[i];
      if id in before then before else before + [id]
  }

  /**
   * The loop throws at row `i` when that row is the first of its translator
   * and its translator record is null.
   */
  predicate ThrowsAt(rows: seq<ParticipantStat>, i: int) {
    0 <= i < |rows| && rows[i].translator.None?
    && forall j :: 0 <= j < i ==> rows[j].translatorId != rows[i].translatorId
  }

  ghost predicate Throws(rows: seq<ParticipantStat>) {
    exists i :: ThrowsAt(rows, i)
  }

  /** The state of the `forEach`: the keys in insertion order and the map. */
  datatype Tally = Tally(keys: seq<string>, table: map<string, TranslatorStats>)

  /** The body of the callback: create the entry if needed, then count the row. */
  function Record(table: map<string, TranslatorStats>, p: ParticipantStat): map<string, TranslatorStats>
    requires p.translatorId in table || p.translator.Some?
  {
    var created :=
      if p.translatorId in table then table
      else table[p.translatorId := TranslatorStats(p.translator.value.email,
        p.translator.value.firstName + " " + p.translator.value.lastName, 0, 0)];
    var t := created[p.translatorId];
    created[p.translatorId := t.(totalAuctions := t.totalAuctions + 1, wins := if p.isWinner then t.wins + 1 else t.wins)]
  }

  /** The counters after one more row of a translator already in the map. */
  function Bumped(t: TranslatorStats, p: ParticipantStat): TranslatorStats {
    t.(totalAuctions := t.totalAuctions + 1, wins := if p.isWinner then t.wins + 1 else t.wins)
  }

  lemma RecordSeen(table: map<string, TranslatorStats>, p: ParticipantStat)
    requires p.translatorId in table
    ensures Record(table, p) == table[p.translatorId := Bumped(table[p.translatorId], p)]
  {
  }

  lemma RecordNew(table: map<string, TranslatorStats>, p: ParticipantStat)
    requires p.translatorId !in table && p.translator.Some?
    ensures Record(table, p) == table[p.translatorId := TranslatorStats(p.translator.value.email,
      p.translator.value.firstName + " " + p.translator.value.lastName, 1, if p.isWinner then 1 else 0)]
  {
  }

  /** The `forEach` as a fold over the rows; None once a callback throws. */
  function Tallied(rows: seq<ParticipantStat>): Option<Tally> {
    if |rows| == 0 then Some(Tally([], map[]))
    else
      var p := rows[|rows| - 1];
      var before := Tallied(rows[..|rows| - 1]);
      if before.None? then None
      else if p.translatorId !in before.value.table && p.translator.None? then None
      else
        var keys := if p.translatorId in before.value.table then before.value.keys else before.value.keys + [p.translatorId];
        Some(Tally(keys, Record(before.value.table, p)))
  }

  /** `Array.from(translatorMap.values())`: the entries in insertion order. */
  function Values(t: Tally): (vs: seq<TranslatorStats>)
    requires forall k :: k in t.keys ==> k in t.table
    ensures |vs| == |t.keys|
  {
    seq(|t.keys|, j requires 0 <= j < |t.keys| => t.table[t.keys[j]])
  }

  // ---------------------------------------------------------------------------
  // What the fold computes

  lemma PrefixOfPrefix(rows: seq<ParticipantStat>)
    requires |rows| > 0
    ensures forall i :: 0 <= i < |rows| - 1 ==> rows[..|rows| - 1][i] == rows[i]
  {
  }

  /** The keys are the translator ids in order of first appearance, and the map holds exactly them. */
  lemma {:induction false} TalliedKeys(rows: seq<ParticipantStat>)
    requires Tallied(rows).Some?
    ensures Tallied(rows).value.keys == FirstSeen(rows)
    ensures forall k :: k in Tallied(rows).value.table <==> k in FirstSeen(rows)
  {
    if |rows| > 0 {
      TalliedKeys(rows[..|rows| - 1]);
    }
  }

  /** Each entry counts the rows of its translator, and the winning ones. */
  lemma {:induction false} TalliedCounts(rows: seq<ParticipantStat>, k: string)
    requires Tallied(rows).Some? && k in Tallied(rows).value.table
    ensures Tallied(rows).value.table[k].totalAuctions == Count(rows, k)
    ensures Tallied(rows).value.table[k].wins == Wins(rows, k)
  {
    var last := |rows| - 1;
    var before := Tallied(rows[..last]).value;
    if k in before.table {
      TalliedCounts(rows[..last], k);
    } else {
      TalliedKeys(rows[..last]);
      CountUnseen(rows[..last], k);
    }
  }

  lemma {:induction false} CountUnseen(rows: seq<ParticipantStat>, id: string)
    requires id !in FirstSeen(rows)
    ensures Count(rows, id) == 0 && Wins(rows, id) == 0
  {
    if |rows| > 0 {
      PrefixOfPrefix(rows);
      CountUnseen(rows[..|rows| - 1], id);
    }
  }

  /** The fold fails exactly when some row is the first of its translator and has a null record. */
  lemma {:induction false} TalliedFails(rows: seq<ParticipantStat>)
    ensures Tallied(rows).None? <==> Throws(rows)
  {
    if |rows| > 0 {
      var last := |rows| - 1;
      var pre := rows[..last];
      TalliedFails(pre);
      PrefixOfPrefix(rows);
      assert forall i :: ThrowsAt(pre, i) ==> ThrowsAt(rows, i);
      if Tallied(pre).Some? {
        TalliedKeys(pre);
        var p := rows[last];
        if ThrowsAt(rows, last) {
          assert p.translatorId !in FirstSeen(pre);
        }
        if Throws(rows) && !ThrowsAt(rows, last) {
          var i :| ThrowsAt(rows, i);
          assert ThrowsAt(pre, i);
        }
        if p.translatorId !in FirstSeen(pre) && p.translator.None? {
          assert ThrowsAt(rows, last);
        }
      }
    }
  }

  /** Each entry takes its email and name from the first row of its translator. */
  lemma {:induction false} TalliedInfo(rows: seq<ParticipantStat>, k: string)
    requires Tallied(rows).Some? && k in Tallied(rows).value.table
    ensures exists j :: (0 <= j < |rows| && rows[j].translatorId == k && rows[j].translator.Some?
      && (forall i :: 0 <= i < j ==> rows[i].translatorId != k)
      && Tallied(rows).value.table[k].email == rows[j].translator.value.email
      && Tallied(rows).value.table[k].name == rows[j].translator.value.firstName + " " + rows[j].translator.value.lastName)
  {
    var last := |rows| - 1;
    var pre := rows[..last];
    PrefixOfPrefix(rows);
    if k in Tallied(pre).value.table {
      TalliedInfo(pre, k);
      var j :| 0 <= j < |pre| && pre[j].translatorId == k && pre[j].translator.Some?
        && (forall i :: 0 <= i < j ==> pre[i].translatorId != k)
        && Tallied(pre).value.table[k].email == pre[j].translator.value.email
        && Tallied(pre).value.table[k].name == pre[j].translator.value.firstName + " " + pre[j].translator.value.lastName;
      assert rows[j] == pre[j];
    } else {
      TalliedKeys(pre);
      assert forall i :: 0 <= i < last ==> rows[i].translatorId != k;
    }
  }

  /** The sum of the totals of a list of entries. */
  function SumTotals(vs: seq<TranslatorStats>): nat {
    if |vs| == 0 then 0 else SumTotals(vs[..|vs| - 1]) + vs[|vs| - 1].totalAuctions
  }

  lemma {:induction false} SumTotalsAppend(vs: seq<TranslatorStats>, ws: seq<TranslatorStats>)
    ensures SumTotals(vs + ws) == SumTotals(vs) + SumTotals(ws)
  {
    if |ws| > 0 {
      assert (vs + ws)[..|vs + ws| - 1] == vs + ws[..|ws| - 1];
      SumTotalsAppend(vs, ws[..|ws| - 1]);
    } else {
      assert vs + ws == vs;
    }
  }

  /** Counting one more auction at position `j` raises the sum by one. */
  lemma {:induction false} SumTotalsBump(vs: seq<TranslatorStats>, j: nat, t: TranslatorStats)
    requires j < |vs| && t.totalAuctions == vs[j].totalAuctions + 1
    ensures SumTotals(vs[j := t]) == SumTotals(vs) + 1
  {
    var last := |vs| - 1;
    if j < last {
      assert vs[j := t][..last] == vs[..last][j := t];
      SumTotalsBump(vs[..last], j, t);
    } else {
      assert vs[j := t][..last] == vs[..last];
    }
  }

  lemma ValuesUpdate(t: Tally, j: nat, e: TranslatorStats)
    requires forall k :: k in t.keys ==> k in t.table
    requires j < |t.keys|
    requires forall i :: 0 <= i < |t.keys| && i != j ==> t.keys[i] != t.keys[j]
    ensures Values(Tally(t.keys, t.table[t.keys[j] := e])) == Values(t)[j := e]
  {
  }

  lemma ValuesAppend(t: Tally, id: string, e: TranslatorStats)
    requires forall k :: k in t.keys ==> k in t.table
    requires id !in t.keys
    ensures Values(Tally(t.keys + [id], t.table[id := e])) == Values(t) + [e]
  {
  }

  /** The keys are distinct and are exactly the keys of the map. */
  lemma TalliedWellFormed(rows: seq<ParticipantStat>)
    requires Tallied(rows).Some?
    ensures forall k :: k in Tallied(rows).value.keys <==> k in Tallied(rows).value.table
    ensures forall i, j :: 0 <= i < j < |Tallied(rows).value.keys| ==> Tallied(rows).value.keys[i] != Tallied(rows).value.keys[j]
  {
    TalliedKeys(rows);
  }

  /** Every row is counted exactly once: the totals add up to the number of rows. */
  lemma {:induction false} TotalsCoverRows(rows: seq<ParticipantStat>)
    requires Tallied(rows).Some?
    ensures forall k :: k in Tallied(rows).value.keys ==> k in Tallied(rows).value.table
    ensures SumTotals(Values(Tallied(rows).value)) == |rows|
  {
    TalliedWellFormed(rows);
    if |rows| > 0 {
      var last := |rows| - 1;
      var pre := rows[..last];
      var p := rows[last];
      var before := Tallied(pre).value;
      var after := Tallied(rows).value;
      TotalsCoverRows(pre);
      TalliedWellFormed(pre);
      var vs := Values(before);
      if p.translatorId in before.table {
        var j :| 0 <= j < |before.keys| && before.keys[j] == p.translatorId;
        var t := Bumped(before.table[p.translatorId], p);
        RecordSeen(before.table, p);
        ValuesUpdate(before, j, t);
        SumTotalsBump(vs, j, t);
      } else {
        var t := TranslatorStats(p.translator.value.email,
          p.translator.value.firstName + " " + p.translator.value.lastName, 1, if p.isWinner then 1 else 0);
        RecordNew(before.table, p);
        ValuesAppend(before, p.translatorId, t);
        SumTotalsAppend(vs, [t]);
        assert SumTotals([t]) == 1 by {
          assert [t][..0] == [];
        }
      }
    }
  }

  // ---------------------------------------------------------------------------
  // Sorting

  predicate SortedByTotal(xs: seq<TranslatorStats>) {
    forall j, k :: 0 <= j < k < |xs| ==> xs[j].totalAuctions >= xs[k].totalAuctions
  }

  /** Insert `x` after every element with at least its total, keeping ties in order. */
  function Insert(x: TranslatorStats, xs: seq<TranslatorStats>): (r: seq<TranslatorStats>)
    ensures |r| == |xs| + 1
    ensures multiset(r) == multiset(xs) + multiset{x}
    ensures r[0] == x || (|xs| > 0 && r[0] == xs[0])
  {
    if |xs| == 0 then [x]
    else if xs[0].totalAuctions >= x.totalAuctions then
      assert xs == [xs[0]] + xs[1..];
      [xs[0]] + Insert(x, xs[1..])
    else [x] + xs
  }

  /** Inserting into a list sorted by total keeps it sorted. */
  lemma {:induction false} InsertSorted(x: TranslatorStats, xs: seq<TranslatorStats>)
    requires SortedByTotal(xs)
    ensures SortedByTotal(Insert(x, xs))
  {
    if |xs| > 0 && xs[0].totalAuctions >= x.totalAuctions {
      var rest := Insert(x, xs[1..]);
      InsertSorted(x, xs[1..]);
      var r := Insert(x, xs);
      assert r == [xs[0]] + rest;
      assert rest[0].totalAuctions <= xs[0].totalAuctions;
      forall j, k | 0 <= j < k < |r| ensures r[j].totalAuctions >= r[k].totalAuctions {
        if j > 0 {
          assert r[j] == rest[j - 1] && r[k] == rest[k - 1];
        } else {
          assert r[k] == rest[k - 1];
          assert rest[0].totalAuctions >= rest[k - 1].totalAuctions;
        }
      }
    }
  }

  /** `.sort((a, b) => b.totalAuctions - a.totalAuctions)`: stable, non-increasing. */
  function SortByTotal(xs: seq<TranslatorStats>): (r: seq<TranslatorStats>)
    ensures SortedByTotal(r)
    ensures multiset(r) == multiset(xs)
  {
    if |xs| == 0 then []
    else
      var last := |xs| - 1;
      assert xs == xs[..last] + [xs[last]];
      InsertSorted(xs[last], SortByTotal(xs[..last]));
      Insert(xs[last], SortByTotal(xs[..last]))
  }

  // ---------------------------------------------------------------------------
  // The loop

  /**
   * The `forEach` over the participant rows and the sort that follows.
   * None is the TypeError of reading `email` from a null record.
   */
  method TranslatorParticipation(rows: seq<ParticipantStat>) returns (r: Option<seq<TranslatorStats>>)
    ensures r.None? <==> Tallied(rows).None?
    ensures r.Some? ==>
      (forall k :: k in Tallied(rows).value.keys ==> k in Tallied(rows).value.table)
      && SortedByTotal(r.value) && multiset(r.value) == multiset(Values(Tallied(rows).value))
  {
    var keys: seq<string> := [];
    var table: map<string, TranslatorStats> := map[];
    for i := 0 to |rows|
      invariant Tallied(rows[..i]) == Some(Tally(keys, table))
    {
      var p := rows[i];
      assert rows[..i + 1][..i] == rows[..i];
      if p.translatorId !in table && p.translator.None? {
        assert Tallied(rows[..i + 1]).None?;
        TalliedStaysFailed(rows, i + 1);
        return None;
      }
      if p.translatorId !in table {
        keys := keys + [p.translatorId];
      }
      table := Record(table, p);
    }
    assert rows[..|rows|] == rows;
    TalliedKeys(rows);
    r := Some(SortByTotal(Values(Tally(keys, table))));
  }

  lemma {:induction false} TalliedStaysFailed(rows: seq<ParticipantStat>, n: nat)
    requires n <= |rows| && Tallied(rows[..n]).None?
    ensures Tallied(rows).None?
  {
    if n < |rows| {
      var last := |rows| - 1;
      assert rows[..last][..n] == rows[..n];
      TalliedStaysFailed(rows[..last], n);
    } else {
      assert rows[..n] == rows;
    }
  }
}
