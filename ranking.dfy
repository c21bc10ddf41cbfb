/** GET /api/ranking (server.js): the leaderboard of active users with points,
    best first, and the statistics over all active users. The query runs over the
    ledger's tables; `parseInt` of the `limit` query parameter is passed in. */
module Ranking {
  import opened Common
  import opened Server

  /** Rows returned when no usable limit is given. */
  const DefaultLimit: nat := 50

  /** `parseInt(req.query.limit) || 50`, where `parsed` is None when parseInt gives NaN. */
  function EffectiveLimit(parsed: Option<int>): (limit: int)
    ensures parsed.None? || parsed.value == 0 ==> limit == DefaultLimit
    ensures parsed.Some? && parsed.value != 0 ==> limit == parsed.value
  {
    if parsed.None? || parsed.value == 0 then DefaultLimit else parsed.value
  }

  /** `WHERE activo = 1 AND total_puntos > 0` */
  predicate Listed(u: User)
  {
    u.activo && u.totalPuntos > 0
  }

  /** `ORDER BY total_puntos DESC, fecha_registro ASC`: a may come before b. */
  predicate RanksBefore(a: User, b: User)
  {
    a.totalPuntos > b.totalPuntos || (a.totalPuntos == b.totalPuntos && a.fechaRegistro <= b.fechaRegistro)
  }

  predicate SortedByRank(s: seq<User>)
  {
    forall i, j :: 0 <= i < j < |s| ==> RanksBefore(s[i], s[j])
  }

  function ListedUsers(users: seq<User>): (r: seq<User>)
    ensures forall u :: u in r ==> Listed(u)
    ensures multiset(r) == ListedMultiset(users)
    decreases |users|
  {
    if users == [] then []
    else (if Listed(users[0]) then [users[0]] else []) + ListedUsers(users[1..])
  }

  /** The listed users as a multiset of the table, for stating the permutation. */
  function ListedMultiset(users: seq<User>): multiset<User>
    decreases |users|
  {
    if users == [] then multiset{}
    else (if Listed(users[0]) then multiset{users[0]} else multiset{}) + ListedMultiset(users[1..])
  }

  lemma {:induction false} ListedMultisetMembers(users: seq<User>, u: User)
    ensures u in ListedMultiset(users) <==> u in users && Listed(u)
    decreases |users|
  {
    if users != [] {
      ListedMultisetMembers(users[1..], u);
      assert users == [users[0]] + users[1..];
    }
  }

  /** Places u before the first element it ranks before or ties with. */
  function InsertByRank(u: User, s: seq<User>): (r: seq<User>)
    ensures multiset(r) == multiset(s) + multiset{u}
    ensures SortedByRank(s) ==> SortedByRank(r)
    decreases |s|
  {
    if s == [] || RanksBefore(u, s[0]) then
      assert SortedByRank(s) ==> SortedByRank([u] + s) by {
        if SortedByRank(s) {
          ConsSorted(u, s);
        }
      }
      [u] + s
    else
      var rest := InsertByRank(u, s[1..]);
      assert s == [s[0]] + s[1..];
      assert SortedByRank(s) ==> SortedByRank([s[0]] + rest) by {
        if SortedByRank(s) {
          HeadRanksBeforeRest(s, u, rest);
          ConsSorted(s[0], rest);
        }
      }
      [s[0]] + rest
  }

  /** An element that ranks before the head of a sorted sequence can go in front. */
  lemma ConsSorted(x: User, s: seq<User>)
    requires SortedByRank(s)
    requires s == [] || RanksBefore(x, s[0])
    ensures SortedByRank([x] + s)
  {
    forall i, j | 0 <= i < j < |[x] + s| ensures RanksBefore(([x] + s)[i], ([x] + s)[j]) {
      if i == 0 && j > 1 {
        assert RanksBefore(s[0], s[j - 1]);
      }
    }
  }

  /** When u goes after the head, the head ranks before everything inserted behind it. */
  lemma HeadRanksBeforeRest(s: seq<User>, u: User, rest: seq<User>)
    requires SortedByRank(s) && s != [] && !RanksBefore(u, s[0])
    requires multiset(rest) == multiset(s[1..]) + multiset{u}
    ensures rest == [] || RanksBefore(s[0], rest[0])
  {
    if rest != [] {
      assert rest[0] in multiset(rest);
      if rest[0] != u {
        assert rest[0] in multiset(s[1..]);
        var k :| 0 <= k < |s[1..]| && s[1..][k] == rest[0];
        assert RanksBefore(s[0], s[k + 1]);
      }
    }
  }

  /** The listed users in ranking order (an insertion sort; ties keep table order). */
  function SortByRank(s: seq<User>): (r: seq<User>)
    ensures multiset(r) == multiset(s)
    ensures SortedByRank(r)
    decreases |s|
  {
    if s == [] then []
    else
      assert s == [s[0]] + s[1..];
      InsertByRank(s[0], SortByRank(s[1..]))
  }

  /** `(SELECT COUNT(*) FROM participaciones WHERE usuario_id = usuarios.id)` */
  function ParticipationCount(ps: seq<Participation>, uid: nat): nat
    decreases |ps|
  {
    if ps == [] then 0 else (if ps[0].usuarioId == uid then 1 else 0) + ParticipationCount(ps[1..], uid)
  }

  datatype RankingRow = RankingRow(
    posicion: nat, id: nat, nombre: string, puntos: nat, participaciones: nat, fechaRegistro: int)

  function Min(a: int, b: int): int
  {
    if a < b then a else b
  }

  /** The users the leaderboard shows, in order, for a non-negative limit. */
  function TopUsers(users: seq<User>, limit: nat): seq<User>
  {
    var sorted := SortByRank(ListedUsers(users));
    sorted[..Min(limit, |sorted|)]
  }

  /** The leaderboard rows, numbered from 1. */
  function RankingRows(t: Tables, limit: nat): (rows: seq<RankingRow>)
    ensures |rows| == |TopUsers(t.users, limit)|
  {
    var top := TopUsers(t.users, limit);
    seq(|top|, i requires 0 <= i < |top| =>
      RankingRow(i + 1, top[i].id, top[i].nombre, top[i].totalPuntos,
                 ParticipationCount(t.participations, top[i].id), top[i].fechaRegistro))
  }

  /** The users shown: min(limit, eligible) of them, each an active user from the
      table, best first; when they fit, exactly the eligible users. */
  lemma TopUsersOfListed(users: seq<User>, limit: nat)
    ensures var top := TopUsers(users, limit);
            && |top| == Min(limit, |ListedMultiset(users)|)
            && (forall i :: 0 <= i < |top| ==> top[i] in users && Listed(top[i]))
            && (forall i, j :: 0 <= i < j < |top| ==> RanksBefore(top[i], top[j]))
            && multiset(top) <= ListedMultiset(users)
            && (|ListedMultiset(users)| <= limit ==> multiset(top) == ListedMultiset(users))
  {
    var listed := ListedUsers(users);
    var sorted := SortByRank(listed);
    var k := Min(limit, |sorted|);
    var top := sorted[..k];
    assert |ListedMultiset(users)| == |sorted| by {
      assert |multiset(sorted)| == |multiset(listed)|;
    }
    PrefixOfSorted(sorted, k);
    forall i | 0 <= i < k ensures top[i] in users && Listed(top[i]) {
      assert top[i] in multiset(top);
      ListedMultisetMembers(users, top[i]);
    }
  }

  /** A prefix of a sorted sequence is sorted and a sub-multiset; the whole of it when
      it is as long as the sequence. */
  lemma PrefixOfSorted(sorted: seq<User>, k: nat)
    requires SortedByRank(sorted) && k <= |sorted|
    ensures SortedByRank(sorted[..k])
    ensures multiset(sorted[..k]) <= multiset(sorted)
    ensures k == |sorted| ==> multiset(sorted[..k]) == multiset(sorted)
  {
    assert sorted == sorted[..k] + sorted[k..];
    assert multiset(sorted) == multiset(sorted[..k]) + multiset(sorted[k..]);
  }

  /** What the leaderboard promises: one row per user shown, numbered 1..n in
      ranking order, with that user's id and points. */
  lemma RankingIsTopOfListed(t: Tables, limit: nat)
    ensures var rows := RankingRows(t, limit);
            var top := TopUsers(t.users, limit);
            && |rows| == Min(limit, |ListedMultiset(t.users)|)
            && (forall i :: 0 <= i < |rows| ==>
                  rows[i].posicion == i + 1 && rows[i].id == top[i].id && rows[i].puntos == top[i].totalPuntos
                  && rows[i].participaciones == ParticipationCount(t.participations, top[i].id))
            && (forall i :: 0 <= i < |top| ==> top[i] in t.users && Listed(top[i]))
            && (forall i, j :: 0 <= i < j < |top| ==> RanksBefore(top[i], top[j]))
  {
    TopUsersOfListed(t.users, limit);
  }

  /** Users left off a full leaderboard rank no better than the last one shown. */
  lemma CutOffRanksBehind(t: Tables, limit: nat, i: nat)
    requires var sorted := SortByRank(ListedUsers(t.users)); limit <= i < |sorted|
    ensures var sorted := SortByRank(ListedUsers(t.users));
            forall k :: 0 <= k < limit ==> RanksBefore(TopUsers(t.users, limit)[k], sorted[i])
  {
  }

  // ---------------------------------------------------------------------------
  // Statistics over all active users
  // ---------------------------------------------------------------------------

  datatype Stats = Stats(
    totalUsuarios: nat,
    puntosTotales: Option<nat>,   // SUM: NULL without active users
    promedioPuntos: int,          // Math.round(AVG || 0)
    maxPuntos: Option<nat>)       // MAX: NULL without active users

  function ActivePoints(users: seq<User>): (r: seq<nat>)
    ensures |r| <= |users|
    decreases |users|
  {
    if users == [] then []
    else (if users[0].activo then [users[0].totalPuntos] else []) + ActivePoints(users[1..])
  }

  function Sum(xs: seq<nat>): nat
    decreases |xs|
  {
    if xs == [] then 0 else xs[0] + Sum(xs[1..])
  }

  function Max(xs: seq<nat>): (m: nat)
    requires xs != []
    ensures m in xs && forall x :: x in xs ==> x <= m
    decreases |xs|
  {
    if |xs| == 1 then xs[0]
    else
      var rest := Max(xs[1..]);
      assert forall x :: x in xs ==> x == xs[0] || x in xs[1..];
      if xs[0] > rest then xs[0] else rest
  }

  /** MySQL's AVG over integers is a DECIMAL with four decimals, rounded half up;
      it is returned here scaled by 10000. */
  function AvgScaled(sum: nat, count: nat): nat
    requires count > 0
  {
    var a := RoundQuotient(sum * 10000, count);
    assert 2 * count * a + count > 0;
    if a < 0 then 0 else a
  }

  /** `Math.round(stats.promedio_puntos || 0)`: 0 without active users (AVG is NULL,
      and an average of 0.0000 is 0 as well). */
  function Promedio(xs: seq<nat>): int
  {
    if xs == [] then 0 else (AvgScaled(Sum(xs), |xs|) + 5000) / 10000
  }

  /** The statistics block of the response. */
  function RankingStats(users: seq<User>): (s: Stats)
    ensures s.totalUsuarios == |ActivePoints(users)|
    ensures s.puntosTotales.None? <==> s.maxPuntos.None?
    ensures s.maxPuntos.None? <==> ActivePoints(users) == []
    ensures s.maxPuntos.Some? ==> forall x :: x in ActivePoints(users) ==> x <= s.maxPuntos.value
    ensures s.maxPuntos.Some? ==> s.maxPuntos.value in ActivePoints(users)
    ensures s.puntosTotales.Some? ==> s.puntosTotales.value == Sum(ActivePoints(users))
    ensures s.promedioPuntos == Promedio(ActivePoints(users))
  {
    var xs := ActivePoints(users);
    Stats(|xs|,
          if xs == [] then None else Some(Sum(xs)),
          Promedio(xs),
          if xs == [] then None else Some(Max(xs)))
  }

  /** Rounding the four-decimal average again lands on the exact rounded average or
      one above it: the average is never rounded down past the true value. */
  lemma PromedioNearAverage(xs: seq<nat>)
    requires xs != []
    ensures var r := RoundQuotient(Sum(xs), |xs|);
            r <= Promedio(xs) <= r + 1
  {
    var s, n := Sum(xs), |xs|;
    var a := AvgScaled(s, n);
    var r := RoundQuotient(s, n);
    assert a == RoundQuotient(s * 10000, n);
    ScaledNotBelow(s, n, a, r);
    ScaledNotAbove(s, n, a, r);
  }

  /** s / n >= r - 1/2, so the scaled average is at least 10000 r - 5000. */
  lemma ScaledNotBelow(s: int, n: int, a: int, r: int)
    requires n > 0
    requires 20000 * s < 2 * n * a + n && 2 * n * r - n <= 2 * s
    ensures a >= 10000 * r - 5000
  {
    assert 20000 * s >= 20000 * (n * r) - 10000 * n;
    assert n * (2 * a + 1) == 2 * n * a + n;
    assert n * (20000 * r - 10000) == 20000 * (n * r) - 10000 * n;
    MulBelowDivisorInv(n, 2 * a + 1, 20000 * r - 10000);
  }

  /** s / n < r + 1/2, so the scaled average is at most 10000 r + 5000. */
  lemma ScaledNotAbove(s: int, n: int, a: int, r: int)
    requires n > 0
    requires 2 * n * a - n <= 20000 * s && 2 * s < 2 * n * r + n
    ensures a <= 10000 * r + 5000
  {
    assert 20000 * s < 20000 * (n * r) + 10000 * n;
    assert n * (2 * a - 1) == 2 * n * a - n;
    assert n * (20000 * r + 10000) == 20000 * (n * r) + 10000 * n;
    MulBelowDivisorInv(n, 20000 * r + 10000, 2 * a - 1);
  }

  /** Cancelling a positive factor: n * x < n * y implies x < y. */
  lemma MulBelowDivisorInv(n: int, x: int, y: int)
    requires n > 0
    ensures n * y < n * x ==> y < x
  {
    if y >= x {
      assert x * n <= y * n;
    }
  }

  // ---------------------------------------------------------------------------
  // The handler
  // ---------------------------------------------------------------------------

  datatype RankingReply =
    | RankingBody(ranking: seq<RankingRow>, estadisticas: Stats)   // 200
    | RankingFailed(status: nat, error: string)

  /** The handler: a negative limit makes the query fail, which the global error
      handler answers with 500. */
  function RankingHandler(t: Tables, parsedLimit: Option<int>): (reply: RankingReply)
    ensures reply.RankingFailed? <==> parsedLimit.Some? && parsedLimit.value < 0
    ensures reply.RankingBody? ==> |reply.ranking| <= EffectiveLimit(parsedLimit)
    ensures reply.RankingBody? && parsedLimit.None? ==> |reply.ranking| <= DefaultLimit
  {
    var limit := EffectiveLimit(parsedLimit);
    if limit < 0 then RankingFailed(500, "Error interno del servidor")
    else RankingBody(RankingRows(t, limit), RankingStats(t.users))
  }
}
