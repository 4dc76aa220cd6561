/** The read-only list endpoints: every listing is the default user's rows;
    the behavioural listing is also ordered newest first and capped by the
    `limit` query argument. */
module Queries {
  import opened Json
  import opened Sql
  import opened Records

  // ---------------------------------------------------------------- the limit argument

  predicate AllDigits(s: string) {
    |s| > 0 && forall i :: 0 <= i < |s| ==> IsDigit(s[i])
  }

  /** Python's `int()` on a query-string value: an optional sign, then
      decimal digits (leading zeros allowed); anything else raises. */
  function ParseLimit(s: string): (r: Option<int>)
    ensures r.Some? && |s| > 0 && s[0] == '-' ==> r.value <= 0
    ensures r.Some? && !(|s| > 0 && s[0] == '-') ==> r.value >= 0
    ensures s == "" ==> r.None?
    ensures r.Some? <==> AllDigits(s) || (|s| > 0 && (s[0] == '-' || s[0] == '+') && AllDigits(s[1..]))
  {
    if |s| > 0 && (s[0] == '-' || s[0] == '+') then
      if AllDigits(s[1..]) then Some(if s[0] == '-' then -(DigitsValue(s[1..]) as int) else DigitsValue(s[1..]))
      else None
    else if AllDigits(s) then Some(DigitsValue(s))
    else None
  }

  lemma NatTextIsDigits(n: nat)
    ensures AllDigits(NatText(n))
    ensures NatText(n)[0] != '-' && NatText(n)[0] != '+'
  {
    NatTextDigits(n);
    assert IsDigit(NatText(n)[0]);
  }

  lemma ParseLimitUnsigned(d: string)
    requires AllDigits(d) && d[0] != '-' && d[0] != '+'
    ensures ParseLimit(d) == Some(DigitsValue(d))
  {
  }

  lemma ParseLimitNegative(d: string)
    requires AllDigits(d)
    ensures ParseLimit("-" + d) == Some(-(DigitsValue(d) as int))
  {
    assert ("-" + d)[1..] == d;
  }

  /** Every integer's decimal text is read back as that integer. */
  lemma LimitTextRoundTrip(n: int)
    ensures ParseLimit(IntText(n)) == Some(n)
  {
    if n < 0 {
      NatTextIsDigits(-n);
      DigitsValueOfNatText(-n);
      ParseLimitNegative(NatText(-n));
    } else {
      NatTextIsDigits(n);
      DigitsValueOfNatText(n);
      ParseLimitUnsigned(NatText(n));
    }
  }

  /** The limit a request asks for: 100 when the argument is absent. */
  function RequestedLimit(arg: Option<string>): Option<int> {
    match arg
    case None => Some(100)
    case Some(s) => ParseLimit(s)
  }

  // ---------------------------------------------------------------- newest first

  ghost predicate NewestFirst(s: seq<Row<Sample>>) {
    forall i, j :: 0 <= i < j < |s| ==> s[i].cols.timestamp >= s[j].cols.timestamp
  }

  /** Places `x` after every row at least as new as it. */
  function InsertByTime(x: Row<Sample>, s: seq<Row<Sample>>): (r: seq<Row<Sample>>)
    ensures |r| == |s| + 1
  {
    if s == [] || s[0].cols.timestamp < x.cols.timestamp then [x] + s
    else [s[0]] + InsertByTime(x, s[1..])
  }

  lemma {:induction false} InsertByTimeKeeps(x: Row<Sample>, s: seq<Row<Sample>>)
    ensures multiset(InsertByTime(x, s)) == multiset(s) + multiset{x}
    decreases |s|
  {
    if s != [] && s[0].cols.timestamp >= x.cols.timestamp {
      InsertByTimeKeeps(x, s[1..]);
      assert s == [s[0]] + s[1..];
    }
  }

  lemma {:induction false} InsertByTimeIn(x: Row<Sample>, s: seq<Row<Sample>>, y: Row<Sample>)
    ensures y in InsertByTime(x, s) <==> y == x || y in s
    decreases |s|
  {
    if s != [] && s[0].cols.timestamp >= x.cols.timestamp {
      InsertByTimeIn(x, s[1..], y);
      assert s == [s[0]] + s[1..];
    }
  }

  lemma {:induction false} InsertByTimeSorted(x: Row<Sample>, s: seq<Row<Sample>>)
    requires NewestFirst(s)
    ensures NewestFirst(InsertByTime(x, s))
    decreases |s|
  {
    if s != [] && s[0].cols.timestamp >= x.cols.timestamp {
      var tail := s[1..];
      assert NewestFirst(tail) by {
        forall i, j | 0 <= i < j < |tail| ensures tail[i].cols.timestamp >= tail[j].cols.timestamp {
          assert tail[i] == s[i + 1] && tail[j] == s[j + 1];
        }
      }
      InsertByTimeSorted(x, tail);
      var ins := InsertByTime(x, tail);
      forall y | y in ins ensures s[0].cols.timestamp >= y.cols.timestamp {
        InsertByTimeIn(x, tail, y);
        if y != x {
          var i :| 0 <= i < |tail| && tail[i] == y;
          assert s[i + 1] == y;
        }
      }
      ConsNewest(s[0], ins);
    }
  }

  lemma ConsNewest(h: Row<Sample>, s: seq<Row<Sample>>)
    requires NewestFirst(s)
    requires forall y :: y in s ==> h.cols.timestamp >= y.cols.timestamp
    ensures NewestFirst([h] + s)
  {
    var r := [h] + s;
    forall i, j | 0 <= i < j < |r| ensures r[i].cols.timestamp >= r[j].cols.timestamp {
      assert r[j] == s[j - 1];
      if i == 0 {
        assert s[j - 1] in s;
      } else {
        assert r[i] == s[i - 1];
      }
    }
  }

  /** `ORDER BY timestamp DESC`: an insertion sort, newest row first. */
  function SortByTime(s: seq<Row<Sample>>): (r: seq<Row<Sample>>)
    ensures |r| == |s|
  {
    if s == [] then [] else InsertByTime(s[0], SortByTime(s[1..]))
  }

  /** The sort is a permutation of its input. */
  lemma {:induction false} SortByTimeKeeps(s: seq<Row<Sample>>)
    ensures multiset(SortByTime(s)) == multiset(s)
    decreases |s|
  {
    if s != [] {
      SortByTimeKeeps(s[1..]);
      InsertByTimeKeeps(s[0], SortByTime(s[1..]));
      assert s == [s[0]] + s[1..];
    }
  }

  lemma {:induction false} SortByTimeSorted(s: seq<Row<Sample>>)
    ensures NewestFirst(SortByTime(s))
    decreases |s|
  {
    if s != [] {
      SortByTimeSorted(s[1..]);
      InsertByTimeSorted(s[0], SortByTime(s[1..]));
    }
  }

  // ---------------------------------------------------------------- listings

  /** `get_behavioral_data`: a limit that does not parse, or that does not fit
      in 64 bits, is a 500; a negative limit lists every row. */
  function ListSamples(t: seq<Row<Sample>>, limit: Option<string>): (r: Reply<seq<Row<Sample>>>)
    ensures r.Error? ==> r == Error(500, "Failed to fetch behavioral data")
    ensures r.Ok? ==> |r.body| <= |OwnedBy(t, DefaultUser)|
    ensures limit.None? ==> r.Ok?
  {
    match RequestedLimit(limit)
    case None => Error(500, "Failed to fetch behavioral data")
    case Some(n) =>
      if !(MinInt64 <= n <= MaxInt64) then Error(500, "Failed to fetch behavioral data")
      else
        var rows := SortByTime(OwnedBy(t, DefaultUser));
        Ok(if n < 0 || n >= |rows| then rows else rows[..n])
  }

  /** A prefix of a newest-first list is newest first, and no row past the
      prefix is newer than a row in it. */
  lemma NewestPrefix(rows: seq<Row<Sample>>, m: nat)
    requires NewestFirst(rows) && m <= |rows|
    ensures NewestFirst(rows[..m])
    ensures multiset(rows[..m]) <= multiset(rows)
    ensures forall x, y :: x in multiset(rows) - multiset(rows[..m]) && y in rows[..m] ==>
      x.cols.timestamp <= y.cols.timestamp
  {
    var r := rows[..m];
    var rest := rows[m..];
    assert rows == r + rest;
    assert multiset(rows) == multiset(r) + multiset(rest);
    forall x, y | x in multiset(rows) - multiset(r) && y in r
      ensures x.cols.timestamp <= y.cols.timestamp
    {
      assert x in rest;
      NewestSplit(rows, m, x, y);
    }
  }

  lemma NewestSplit(rows: seq<Row<Sample>>, m: nat, x: Row<Sample>, y: Row<Sample>)
    requires NewestFirst(rows) && m <= |rows|
    requires x in rows[m..] && y in rows[..m]
    ensures x.cols.timestamp <= y.cols.timestamp
  {
    var a :| 0 <= a < |rows| - m && rows[m..][a] == x;
    var b :| 0 <= b < m && rows[..m][b] == y;
    assert rows[b] == y && rows[m + a] == x;
  }

  /** How many rows a limit of `n` lets through out of `len`. */
  function Capped(n: int, len: nat): (k: nat)
    ensures k <= len
    ensures n < 0 ==> k == len
    ensures n >= 0 ==> k == if n < len then n else len
  {
    if n < 0 || n >= len then len else n
  }

  /** The listing is the owned rows sorted newest first, cut at the limit;
      it fails exactly when the limit does not parse or fit in 64 bits. */
  lemma ListSamplesShape(t: seq<Row<Sample>>, limit: Option<string>)
    ensures ListSamples(t, limit).Ok? <==>
      RequestedLimit(limit).Some? && MinInt64 <= RequestedLimit(limit).value <= MaxInt64
    ensures ListSamples(t, limit).Ok? ==>
      ListSamples(t, limit).body ==
        SortByTime(OwnedBy(t, DefaultUser))[..Capped(RequestedLimit(limit).value, |OwnedBy(t, DefaultUser)|)]
  {
  }

  /** The first `m` rows of the sorted owned rows: newest first, drawn
      from the owned rows, and no owned row left out is newer than one kept. */
  lemma NewestOwned(owned: seq<Row<Sample>>, m: nat)
    requires m <= |owned|
    ensures NewestFirst(SortByTime(owned)[..m])
    ensures multiset(SortByTime(owned)[..m]) <= multiset(owned)
    ensures forall x, y :: x in multiset(owned) - multiset(SortByTime(owned)[..m]) && y in SortByTime(owned)[..m] ==>
      x.cols.timestamp <= y.cols.timestamp
  {
    var rows := SortByTime(owned);
    SortByTimeSorted(owned);
    SortByTimeKeeps(owned);
    NewestPrefix(rows, m);
  }

  /** The listing holds only the default user's rows, as many as the limit
      allows, newest first, and no row left out is newer than one listed. */
  lemma ListSamplesSpec(t: seq<Row<Sample>>, limit: Option<string>)
    requires ListSamples(t, limit).Ok?
    ensures |ListSamples(t, limit).body| == Capped(RequestedLimit(limit).value, |OwnedBy(t, DefaultUser)|)
    ensures forall x :: x in ListSamples(t, limit).body ==> x.userId == DefaultUser && x in t
    ensures NewestFirst(ListSamples(t, limit).body)
    ensures multiset(ListSamples(t, limit).body) <= multiset(OwnedBy(t, DefaultUser))
    ensures forall x, y ::
      (x in multiset(OwnedBy(t, DefaultUser)) - multiset(ListSamples(t, limit).body) && y in ListSamples(t, limit).body)
      ==> x.cols.timestamp <= y.cols.timestamp
  {
    ListSamplesShape(t, limit);
    var owned := OwnedBy(t, DefaultUser);
    var m := Capped(RequestedLimit(limit).value, |owned|);
    NewestOwned(owned, m);
    var r := ListSamples(t, limit).body;
    forall x | x in r ensures x.userId == DefaultUser && x in t {
      assert x in multiset(r);
      assert x in multiset(owned);
      var i :| 0 <= i < |owned| && owned[i] == x;
    }
  }

  /** Without a `limit` argument the listing is the newest 100 rows. */
  lemma ListSamplesDefault(t: seq<Row<Sample>>)
    ensures ListSamples(t, None).Ok?
    ensures |ListSamples(t, None).body| == if |OwnedBy(t, DefaultUser)| < 100 then |OwnedBy(t, DefaultUser)| else 100
  {
    ListSamplesShape(t, None);
    ListSamplesSpec(t, None);
  }

  /** `get_emotion_sessions`, `get_interventions`, `get_wellbeing_reports`:
      the default user's rows in table order. */
  function ListOwned<R>(t: seq<Row<R>>): (r: seq<Row<R>>)
    ensures forall i :: 0 <= i < |r| ==> r[i].userId == DefaultUser && r[i] in t
    ensures forall x :: x in t && x.userId == DefaultUser ==> x in r
  {
    OwnedBy(t, DefaultUser)
  }

  /** A listing of the owned rows is exactly the table when every row
      belongs to the default user. */
  lemma {:induction false} ListOwnedAll<R>(t: seq<Row<R>>)
    requires forall i :: 0 <= i < |t| ==> t[i].userId == DefaultUser
    ensures ListOwned(t) == t
    decreases |t|
  {
    if t != [] {
      ListOwnedAll(t[1..]);
      assert [t[0]] + t[1..] == t;
    }
  }
}
