/** The one piece of logic in the weather dashboard (weather-app/scripts/app.js): picking
    one forecast entry per calendar day, at most five days, from the API's list of
    three-hourly entries. */
module Weather {
  import opened Seqs

  /** How many days the forecast strip shows. */
  const MaxDays: nat := 5

  /** One entry of the forecast list: its Unix time `dt` in seconds and the rest of the
      reading, which the selection never looks at. */
  datatype Forecast<W> = Forecast(dt: int, reading: W)

  /** The calendar days (as `dayKey` names them) that occur in `s`. `dayKey(dt)` stands
      for `new Date(dt * 1000).toDateString()`, whose value depends on the time zone. */
  function Days<W>(s: seq<Forecast<W>>, dayKey: int -> string): set<string>
  {
    if s == [] then {} else Days(s[..|s| - 1], dayKey) + {dayKey(s[|s| - 1].dt)}
  }

  /** The entry at `i` is the earliest entry of its day. */
  ghost predicate IsFirstOfDay<W>(s: seq<Forecast<W>>, dayKey: int -> string, i: int)
  {
    0 <= i < |s| && forall j :: 0 <= j < i ==> dayKey(s[j].dt) != dayKey(s[i].dt)
  }

  /** No two entries fall on the same day. */
  ghost predicate DistinctDays<W>(s: seq<Forecast<W>>, dayKey: int -> string)
  {
    forall i, j :: 0 <= i < j < |s| ==> dayKey(s[i].dt) != dayKey(s[j].dt)
  }

  /** `r` is drawn from `s` in order, through positions `idx`, each the first of its day. */
  ghost predicate PicksFirsts<W>(r: seq<Forecast<W>>, s: seq<Forecast<W>>, dayKey: int -> string, idx: seq<nat>)
  {
    Embeds(r, s, idx) && forall k :: 0 <= k < |idx| ==> IsFirstOfDay(s, dayKey, idx[k])
  }

  /** Reference definition: the earliest entry of every day, in input order, without a cap. */
  function FirstPerDay<W>(s: seq<Forecast<W>>, dayKey: int -> string): seq<Forecast<W>>
  {
    if s == [] then []
    else
      var init, last := s[..|s| - 1], s[|s| - 1];
      FirstPerDay(init, dayKey) + (if dayKey(last.dt) in Days(init, dayKey) then [] else [last])
  }

  /** A day occurs in `s` exactly when some entry of `s` falls on it. */
  lemma {:induction false} DaysMembers<W>(s: seq<Forecast<W>>, dayKey: int -> string)
    ensures forall i :: 0 <= i < |s| ==> dayKey(s[i].dt) in Days(s, dayKey)
    ensures forall d :: d in Days(s, dayKey) ==> exists i :: 0 <= i < |s| && dayKey(s[i].dt) == d
  {
    if s != [] {
      var init := s[..|s| - 1];
      DaysMembers(init, dayKey);
      forall i | 0 <= i < |init| ensures init[i] == s[i] { }
    }
  }

  lemma DaysAppend<W>(s: seq<Forecast<W>>, x: Forecast<W>, dayKey: int -> string)
    ensures Days(s + [x], dayKey) == Days(s, dayKey) + {dayKey(x.dt)}
  {
    assert (s + [x])[..|s|] == s;
  }

  lemma FirstPerDayAppend<W>(s: seq<Forecast<W>>, x: Forecast<W>, dayKey: int -> string)
    ensures FirstPerDay(s + [x], dayKey) ==
            FirstPerDay(s, dayKey) + (if dayKey(x.dt) in Days(s, dayKey) then [] else [x])
  {
    assert (s + [x])[..|s|] == s;
  }

  /** Every day of the input has its entry in the reference selection. */
  lemma {:induction false} FirstPerDayCoversDays<W>(s: seq<Forecast<W>>, dayKey: int -> string)
    ensures Days(FirstPerDay(s, dayKey), dayKey) == Days(s, dayKey)
  {
    if s != [] {
      var init, last := s[..|s| - 1], s[|s| - 1];
      assert s == init + [last];
      FirstPerDayCoversDays(init, dayKey);
      FirstPerDayAppend(init, last, dayKey);
      DaysAppend(init, last, dayKey);
      if dayKey(last.dt) !in Days(init, dayKey) {
        DaysAppend(FirstPerDay(init, dayKey), last, dayKey);
      } else {
        assert FirstPerDay(s, dayKey) == FirstPerDay(init, dayKey);
        assert Days(s, dayKey) == Days(init, dayKey);
      }
    }
  }

  /** The reference selection never holds two entries of one day. */
  lemma {:induction false} FirstPerDayDistinct<W>(s: seq<Forecast<W>>, dayKey: int -> string)
    ensures DistinctDays(FirstPerDay(s, dayKey), dayKey)
  {
    if s != [] {
      var init, last := s[..|s| - 1], s[|s| - 1];
      var f := FirstPerDay(init, dayKey);
      FirstPerDayDistinct(init, dayKey);
      if dayKey(last.dt) !in Days(init, dayKey) {
        FirstPerDayCoversDays(init, dayKey);
        DaysMembers(f, dayKey);
        var r := f + [last];
        forall i, j | 0 <= i < j < |r| ensures dayKey(r[i].dt) != dayKey(r[j].dt) {
          if j == |f| {
            assert r[i] == f[i];
          } else {
            assert r[i] == f[i] && r[j] == f[j];
          }
        }
      }
    }
  }

  /** The reference selection is drawn from the input in order, and each of its entries is
      the earliest entry of its day. */
  lemma {:induction false} FirstPerDayPicksFirsts<W>(s: seq<Forecast<W>>, dayKey: int -> string)
    returns (idx: seq<nat>)
    ensures PicksFirsts(FirstPerDay(s, dayKey), s, dayKey, idx)
  {
    if s == [] {
      idx := [];
    } else {
      var init, last := s[..|s| - 1], s[|s| - 1];
      var f := FirstPerDay(init, dayKey);
      var prev := FirstPerDayPicksFirsts(init, dayKey);
      forall k | 0 <= k < |prev| ensures prev[k] < |s| && f[k] == s[prev[k]] && IsFirstOfDay(s, dayKey, prev[k]) {
        assert f[k] == init[prev[k]];
        assert IsFirstOfDay(init, dayKey, prev[k]);
      }
      if dayKey(last.dt) in Days(init, dayKey) {
        idx := prev;
      } else {
        idx := prev + [|init|];
        DaysMembers(init, dayKey);
        assert IsFirstOfDay(s, dayKey, |init|);
        var r := f + [last];
        forall k | 0 <= k < |idx| ensures idx[k] < |s| && r[k] == s[idx[k]] && IsFirstOfDay(s, dayKey, idx[k]) {
          if k < |prev| {
            assert r[k] == f[k] && idx[k] == prev[k];
          }
        }
      }
    }
  }

  /** A non-empty input always contributes its first entry first. */
  lemma {:induction false} FirstPerDayStartsWithFirst<W>(s: seq<Forecast<W>>, dayKey: int -> string)
    ensures s == [] <==> FirstPerDay(s, dayKey) == []
    ensures s != [] ==> FirstPerDay(s, dayKey)[0] == s[0]
  {
    if s != [] {
      var init := s[..|s| - 1];
      FirstPerDayStartsWithFirst(init, dayKey);
      if init != [] {
        assert init[0] == s[0];
      }
    }
  }

  /** One step of the walk: with `kept` the capped selection of `prefix`, the next entry
      `x` is appended exactly when its day is new and the cap is not reached, and the
      result is the capped selection of `prefix + [x]`. */
  lemma SelectionStep<W>(prefix: seq<Forecast<W>>, x: Forecast<W>, dayKey: int -> string, kept: seq<Forecast<W>>)
    requires kept == Take(FirstPerDay(prefix, dayKey), MaxDays)
    ensures dayKey(x.dt) !in Days(kept, dayKey) && |kept| < MaxDays ==>
              kept + [x] == Take(FirstPerDay(prefix + [x], dayKey), MaxDays)
    ensures !(dayKey(x.dt) !in Days(kept, dayKey) && |kept| < MaxDays) ==>
              kept == Take(FirstPerDay(prefix + [x], dayKey), MaxDays)
  {
    var f := FirstPerDay(prefix, dayKey);
    FirstPerDayAppend(prefix, x, dayKey);
    if |kept| < MaxDays {
      assert kept == f;
      FirstPerDayCoversDays(prefix, dayKey);
    } else {
      var g := FirstPerDay(prefix + [x], dayKey);
      assert g[..MaxDays] == f[..MaxDays];
    }
  }

  /** What the capped selection promises: at most five entries, on distinct days, drawn in
      order from the input, each the earliest of its day; every day of the input is
      present unless the cap was reached; and the input's first entry leads. */
  lemma DailySelection<W>(s: seq<Forecast<W>>, dayKey: int -> string)
    ensures |Take(FirstPerDay(s, dayKey), MaxDays)| <= MaxDays
    ensures DistinctDays(Take(FirstPerDay(s, dayKey), MaxDays), dayKey)
    ensures exists idx :: PicksFirsts(Take(FirstPerDay(s, dayKey), MaxDays), s, dayKey, idx)
    ensures |Take(FirstPerDay(s, dayKey), MaxDays)| < MaxDays ==>
              Days(Take(FirstPerDay(s, dayKey), MaxDays), dayKey) == Days(s, dayKey)
    ensures s == [] <==> Take(FirstPerDay(s, dayKey), MaxDays) == []
    ensures s != [] ==> Take(FirstPerDay(s, dayKey), MaxDays)[0] == s[0]
  {
    var all := FirstPerDay(s, dayKey);
    var r := Take(all, MaxDays);
    FirstPerDayDistinct(s, dayKey);
    FirstPerDayCoversDays(s, dayKey);
    FirstPerDayStartsWithFirst(s, dayKey);
    var idx := FirstPerDayPicksFirsts(s, dayKey);
    TakeEmbeds(all, s, idx, MaxDays);
    assert PicksFirsts(r, s, dayKey, idx[..|r|]);
  }

  /** `getDailyForecasts(forecastList)`: walks the list once, remembering the days seen,
      and keeps an entry when its day is new and fewer than five entries are kept. */
  method GetDailyForecasts<W>(forecastList: seq<Forecast<W>>, dayKey: int -> string)
    returns (forecasts: seq<Forecast<W>>)
    ensures forecasts == Take(FirstPerDay(forecastList, dayKey), MaxDays)
    ensures |forecasts| <= MaxDays
    ensures DistinctDays(forecasts, dayKey)
    ensures exists idx :: PicksFirsts(forecasts, forecastList, dayKey, idx)
    ensures |forecasts| < MaxDays ==> Days(forecasts, dayKey) == Days(forecastList, dayKey)
    ensures forecastList == [] <==> forecasts == []
    ensures forecastList != [] ==> forecasts[0] == forecastList[0]
  {
    forecasts := [];
    var seenDates: set<string> := {};
    for i := 0 to |forecastList|
      invariant forecasts == Take(FirstPerDay(forecastList[..i], dayKey), MaxDays)
      invariant seenDates == Days(forecasts, dayKey)
    {
      var forecast := forecastList[i];
      var date := dayKey(forecast.dt);
      assert forecastList[..i + 1] == forecastList[..i] + [forecast];
      SelectionStep(forecastList[..i], forecast, dayKey, forecasts);
      if date !in seenDates && |forecasts| < MaxDays {
        DaysAppend(forecasts, forecast, dayKey);
        seenDates := seenDates + {date};
        forecasts := forecasts + [forecast];
      }
    }
    assert forecastList[..|forecastList|] == forecastList;
    DailySelection(forecastList, dayKey);
  }
}
