/** The search-parameter checks shared by the geocache search methods
    (`SearchAssistant::get_common_search_params`) and the "more" rule of
    `get_common_search_result`. Each accepted parameter adds conditions to the
    WHERE list; the conditions are an abstract datatype rather than SQL text. */
module Search {
  import opened Wrappers
  import opened Php

  /** A request's parameters by name; a missing name is a missing parameter. */
  type Params = map<string, string>

  /** `if ($tmp = $request->get_parameter($name))`: the parameter is present
      and true in PHP's sense (not "" and not "0"). */
  predicate Given(p: Params, name: string) {
    name in p && Truthy(p[name])
  }

  /** `$request->get_parameter($name) == null`: missing or "". */
  predicate Blank(p: Params, name: string) {
    name !in p || p[name] == ""
  }

  datatype Column = Terrain | Difficulty | Size

  /** One WHERE condition. */
  datatype Cond =
    | True                                      // 'true', the list's first entry
    | TypeIn(exclude: bool, typeIds: seq<int>)  // caches.type [not] in (...)
    | StatusIn(statusIds: seq<int>)             // caches.status in (...)
    | StatusText(text: string)                  // caches.status in ('text'): one quoted string
    | OwnerIn(userIds: seq<int>)                // caches.user_id in (...)
    | Between(column: Column, lo: int, hi: int) // caches.<column> between lo and hi
    | ScoreBetween(loTenths: int, hiTenths: int) // caches.score between lo/10 and hi/10
    | ScoreFrom(loTenths: int)                  // caches.score between lo/10 and <nothing>: not valid SQL
    | VotesAbove(votes: int)                    // caches.votes > votes
    | TopRatingsPercent(percent: int)           // caches.topratings >= caches.founds * percent/100
    | FoundsPositive                            // caches.founds > 0
    | TopRatingsAtLeast(n: int)                 // caches.topratings >= n
    | FoundsAtLeast(n: int)                     // caches.founds >= n
    | ModifiedAfter(timestamp: int)             // unix_timestamp(caches.last_modified) > timestamp
    | FoundByUser(found: bool)                  // caches.cache_id [not] in (caches the token's user found)
    | NotOwnedByUser                            // caches.user_id != the token's user

  /** The exceptions a check ends with: InvalidParam, by the parameter it
      names, and the service runner's refusal of a method that does not exist. */
  datatype Error = InvalidParam(param: string) | NoSuchMethod(path: string)

  /** The collaborators the checks consult: the cache type and status name
      tables, the users service's answer for an owner_uuid value (missing when
      it raises InvalidParam), and strtotime (missing when it fails). */
  datatype Lookups = Lookups(
    typeIds: map<string, int>,
    statusIds: map<string, int>,
    owners: map<string, seq<int>>,
    timestamps: map<string, int>)

  datatype SearchParams = SearchParams(whereConds: seq<Cond>, limit: int)

  predicate AllKnown(names: seq<string>, table: map<string, int>) {
    forall i :: 0 <= i < |names| ==> names[i] in table
  }

  /** The ids of all names, or None as soon as one name is unknown. */
  function LookupAll(names: seq<string>, table: map<string, int>): (ids: Option<seq<int>>)
    ensures ids.Some? <==> AllKnown(names, table)
    ensures ids.Some? ==> |ids.value| == |names|
    ensures ids.Some? ==> forall i :: 0 <= i < |names| ==> ids.value[i] == table[names[i]]
  {
    if names == [] then Some([])
    else
      match LookupAll(names[..|names| - 1], table)
      case None => None
      case Some(ids) =>
        var last := names[|names| - 1];
        if last in table then Some(ids + [table[last]]) else None
  }

  /** The names listed in the `type` parameter, after a leading "-". */
  function TypeNames(v: string): seq<string>
    requires v != ""
  {
    Explode('|', if v[0] == '-' then v[1..] else v)
  }

  /** `type`: a leading "-" excludes the listed types, otherwise they are
      selected; every "|"-separated name must be a known cache type. */
  function TypeConds(p: Params, typeIds: map<string, int>): (r: Result<seq<Cond>, Error>)
    ensures !Given(p, "type") ==> r == Ok([])
    ensures r.Err? ==> r.error == InvalidParam("type")
    ensures Given(p, "type") ==>
              var names := TypeNames(p["type"]);
              && (r.Ok? <==> AllKnown(names, typeIds))
              && (r.Ok? ==> |r.value| == 1 && r.value[0].TypeIn?
                            && (r.value[0].exclude <==> p["type"][0] == '-')
                            && |r.value[0].typeIds| == |names|
                            && forall i :: 0 <= i < |names| ==> r.value[0].typeIds[i] == typeIds[names[i]])
  {
    if !Given(p, "type") then Ok([])
    else
      var v := p["type"];
      match LookupAll(TypeNames(v), typeIds)
      case None => Err(InvalidParam("type"))
      case Some(ids) => Ok([TypeIn(v[0] == '-', ids)])
  }

  /** The `status` value, "Available" when it is missing or "". */
  function StatusValue(p: Params): (v: string)
    ensures Blank(p, "status") ==> v == "Available"
    ensures !Blank(p, "status") ==> v == p["status"]
  {
    if Blank(p, "status") then "Available" else p["status"]
  }

  /** `status`: always filters; every listed name must be a known status. */
  function StatusConds(p: Params, statusIds: map<string, int>): (r: Result<seq<Cond>, Error>)
    ensures r.Err? ==> r.error == InvalidParam("status")
    ensures var names := Explode('|', StatusValue(p));
            && (r.Ok? <==> AllKnown(names, statusIds))
            && (r.Ok? ==> |r.value| == 1 && r.value[0].StatusIn?
                          && |r.value[0].statusIds| == |names|
                          && forall i :: 0 <= i < |names| ==> r.value[0].statusIds[i] == statusIds[names[i]])
  {
    var names := Explode('|', StatusValue(p));
    match LookupAll(names, statusIds)
    case None => Err(InvalidParam("status"))
    case Some(ids) => Ok([StatusIn(ids)])
  }

  /** status as the code is written: the ids are joined with "," inside a
      single pair of quotes, so the list holds one string, '1,3', and not one
      value per id. */
  function StatusCondsAsWritten(p: Params, statusIds: map<string, int>): (r: Result<seq<Cond>, Error>)
    ensures r.Err? ==> r.error == InvalidParam("status")
    ensures r.Ok? <==> StatusConds(p, statusIds).Ok?
  {
    var names := Explode('|', StatusValue(p));
    match LookupAll(names, statusIds)
    case None => Err(InvalidParam("status"))
    case Some(ids) => Ok([StatusText(JoinedIds(ids))])
  }

  /** `implode(",", $codes)`: the printed ids separated by commas. */
  function JoinedIds(ids: seq<int>): string
    requires |ids| >= 1
  {
    Implode(',', seq(|ids|, i requires 0 <= i < |ids| => IntString(ids[i])))
  }

  /** Whether a status filter lets a cache of the given status through. MySQL
      compares the integer column with a quoted string by reading the number
      the string starts with. */
  predicate AdmitsStatus(c: Cond, status: int)
    requires c.StatusIn? || c.StatusText?
  {
    if c.StatusIn? then status in c.statusIds else status == NumericPrefix(c.text)
  }

  /** Joined ids read as a number give the first id. */
  lemma JoinedIdsFirst(ids: seq<int>)
    requires |ids| >= 1
    ensures NumericPrefix(JoinedIds(ids)) == ids[0]
  {
    var parts := seq(|ids|, i requires 0 <= i < |ids| => IntString(ids[i]));
    if |ids| == 1 {
      assert JoinedIds(ids) == IntString(ids[0]) + [];
      IntStringThen(ids[0], []);
    } else {
      var rest := Implode(',', parts[1..]);
      assert JoinedIds(ids) == IntString(ids[0]) + ([','] + rest);
      IntStringThen(ids[0], [','] + rest);
    }
  }

  /** As written, the status filter lets through only the first listed
      status; the intended filter lets through every listed one. With
      "Available|Archived" archived caches are never found. */
  lemma StatusAsWrittenFirstOnly(p: Params, statusIds: map<string, int>, status: int)
    requires StatusConds(p, statusIds).Ok?
    ensures var ids := StatusConds(p, statusIds).value[0].statusIds;
            var w := StatusCondsAsWritten(p, statusIds).value;
            && |w| == 1 && w[0].StatusText?
            && (AdmitsStatus(w[0], status) <==> status == ids[0])
            && (AdmitsStatus(StatusConds(p, statusIds).value[0], status) <==> status in ids)
  {
    var names := Explode('|', StatusValue(p));
    var ids := LookupAll(names, statusIds).value;
    JoinedIdsFirst(ids);
  }

  /** `owner_uuid`: the caches of the users the users service returns. */
  function OwnerConds(p: Params, owners: map<string, seq<int>>): (r: Result<seq<Cond>, Error>)
    ensures !Given(p, "owner_uuid") ==> r == Ok([])
    ensures Given(p, "owner_uuid") ==>
              (r.Err? <==> p["owner_uuid"] !in owners)
              && (r.Err? ==> r.error == InvalidParam("owner_uuid"))
              && (r.Ok? ==> r.value == [OwnerIn(owners[p["owner_uuid"]])])
  {
    if !Given(p, "owner_uuid") then Ok([])
    else if p["owner_uuid"] in owners then Ok([OwnerIn(owners[p["owner_uuid"]])])
    else Err(InvalidParam("owner_uuid"))
  }

  /** `owner_uuid` as the code is written: the users service is called under
      the misspelt path "serivces/users/users", which names no method, so the
      service runner raises its own exception, which the `catch` of
      InvalidParam does not turn into an owner_uuid error. */
  function OwnerCondsAsWritten(p: Params): (r: Result<seq<Cond>, Error>)
    ensures r.Ok? <==> !Given(p, "owner_uuid")
    ensures r.Err? ==> r.error == NoSuchMethod("serivces/users/users")
  {
    if !Given(p, "owner_uuid") then Ok([])
    else Err(NoSuchMethod("serivces/users/users"))
  }

  /** An owner the users service knows is refused as written and selected
      once the service's path is corrected. */
  lemma OwnerAsWrittenRefusesKnownOwner(p: Params, owners: map<string, seq<int>>)
    requires Given(p, "owner_uuid") && p["owner_uuid"] in owners
    ensures OwnerCondsAsWritten(p) == Err(NoSuchMethod("serivces/users/users"))
    ensures OwnerConds(p, owners) == Ok([OwnerIn(owners[p["owner_uuid"]])])
  {
  }

  const RangeParams: seq<string> := ["terrain", "difficulty", "size", "rating"]

  predicate IsRangeDigit(c: char) {
    '1' <= c <= '5'
  }

  /** "lo-hi" for two digits from 1 to 5. */
  function RangeText(lo: int, hi: int): string
    requires 1 <= lo <= hi <= 5
  {
    [('0' as int + lo) as char, '-', ('0' as int + hi) as char]
  }

  /** A range value that passes both checks: it matches /^[1-5]-[1-5]$/ (whose
      "$" also matches before a final newline) and its minimum is not above
      its maximum. */
  function ParseRange(s: string): (r: Option<(int, int)>)
    ensures r.Some? ==> 1 <= r.value.0 <= r.value.1 <= 5
    ensures r.Some? ==> s == RangeText(r.value.0, r.value.1) || s == RangeText(r.value.0, r.value.1) + "\n"
  {
    if (|s| == 3 || (|s| == 4 && s[3] == '\n')) && IsRangeDigit(s[0]) && s[1] == '-' && IsRangeDigit(s[2]) then
      var lo, hi := s[0] as int - '0' as int, s[2] as int - '0' as int;
      if lo > hi then None
      else
        assert s[..3] == RangeText(lo, hi);
        assert |s| == 4 ==> s == s[..3] + "\n";
        Some((lo, hi))
    else None
  }

  /** Every well-ordered range is accepted, with or without the final newline. */
  lemma ParseRangeText(lo: int, hi: int)
    requires 1 <= lo <= hi <= 5
    ensures ParseRange(RangeText(lo, hi)) == Some((lo, hi))
    ensures ParseRange(RangeText(lo, hi) + "\n") == Some((lo, hi))
  {
  }

  /** A reversed range is rejected. */
  lemma ParseRangeReversed(lo: int, hi: int)
    requires 1 <= hi < lo <= 5
    ensures ParseRange([('0' as int + lo) as char, '-', ('0' as int + hi) as char]) == None
  {
  }

  /** The rating boundaries in tenths: -3.0, -1.0, 0.1, 1.4, 2.2, 3.0. */
  const ScoreDivisors: seq<int> := [-30, -10, 1, 14, 22, 30]

  /** The conditions of an accepted range. */
  function RangeCondsFor(name: string, lo: int, hi: int): seq<Cond>
    requires name in RangeParams && 1 <= lo <= hi <= 5
  {
    if name == "terrain" then [Between(Terrain, 2 * lo, 2 * hi)]
    else if name == "difficulty" then [Between(Difficulty, 2 * lo, 2 * hi)]
    else if name == "size" then [Between(Size, lo + 1, hi + 1)]
    else [ScoreBetween(ScoreDivisors[lo - 1], ScoreDivisors[hi]), VotesAbove(3)]
  }

  /** `terrain`, `difficulty`, `size` and `rating`: an accepted range maps
      to a non-empty interval of the column's own scale. */
  function RangeConds(p: Params, name: string): (r: Result<seq<Cond>, Error>)
    requires name in RangeParams
    ensures !Given(p, name) ==> r == Ok([])
    ensures Given(p, name) ==> (r.Err? <==> ParseRange(p[name]).None?)
    ensures r.Err? ==> r.error == InvalidParam(name)
    ensures r.Ok? ==> forall c :: c in r.value && c.Between? ==>
              c.lo <= c.hi && (if c.column == Size then 2 <= c.lo && c.hi <= 6 else 2 <= c.lo && c.hi <= 10)
    ensures r.Ok? ==> forall c :: c in r.value && c.ScoreBetween? ==> c.loTenths < c.hiTenths
    ensures r.Ok? && Given(p, name) && name == "rating" ==> VotesAbove(3) in r.value
    ensures r.Ok? && Given(p, name) ==>
              var lo, hi := ParseRange(p[name]).value.0, ParseRange(p[name]).value.1;
              && (name == "terrain" ==> r.value == [Between(Terrain, 2 * lo, 2 * hi)])
              && (name == "difficulty" ==> r.value == [Between(Difficulty, 2 * lo, 2 * hi)])
              && (name == "size" ==> r.value == [Between(Size, lo + 1, hi + 1)])
              && (name == "rating" ==> r.value == [ScoreBetween(ScoreDivisors[lo - 1], ScoreDivisors[hi]), VotesAbove(3)])
  {
    if !Given(p, name) then Ok([])
    else
      match ParseRange(p[name])
      case None => Err(InvalidParam(name))
      case Some(b) => Ok(RangeCondsFor(name, b.0, b.1))
  }

  /** The range parameters as the code is written. The pattern's "$" lets a
      final newline through, and `explode` leaves it on the maximum. For
      terrain, difficulty and size that newline only ends up as white space in
      the SQL text, but `rating` looks its maximum up in the divisor list under
      the key "N\n", which is not there: the upper bound comes out empty. */
  function RangeCondsAsWritten(p: Params, name: string): (r: Result<seq<Cond>, Error>)
    requires name in RangeParams
  {
    if !Given(p, name) then Ok([])
    else
      match ParseRange(p[name])
      case None => Err(InvalidParam(name))
      case Some(b) =>
        if name == "rating" && |p[name]| == 4 then Ok([ScoreFrom(ScoreDivisors[b.0 - 1]), VotesAbove(3)])
        else Ok(RangeCondsFor(name, b.0, b.1))
  }

  /** As written, a rating range with a final newline gives a score condition
      without an upper bound. */
  lemma RatingNewlineAsWritten(lo: int, hi: int)
    requires 1 <= lo <= hi <= 5
    ensures RangeCondsAsWritten(map["rating" := RangeText(lo, hi) + "\n"], "rating")
            == Ok([ScoreFrom(ScoreDivisors[lo - 1]), VotesAbove(3)])
  {
    ParseRangeText(lo, hi);
  }

  /** Corrected, the same range selects the scores between its two divisors. */
  lemma RatingNewlineCorrected(lo: int, hi: int)
    requires 1 <= lo <= hi <= 5
    ensures RangeConds(map["rating" := RangeText(lo, hi) + "\n"], "rating")
            == Ok([ScoreBetween(ScoreDivisors[lo - 1], ScoreDivisors[hi]), VotesAbove(3)])
  {
    ParseRangeText(lo, hi);
  }

  /** The two readings differ only on a rating range with a final newline. */
  lemma RangeCondsAsWrittenAgrees(p: Params, name: string)
    requires name in RangeParams
    requires !(name == "rating" && Given(p, name) && |p[name]| == 4)
    ensures RangeCondsAsWritten(p, name) == RangeConds(p, name)
  {
  }

  /** The range parameters in order; the first one that fails decides. */
  function AllRangeConds(p: Params, names: seq<string>): Result<seq<Cond>, Error>
    requires forall i :: 0 <= i < |names| ==> names[i] in RangeParams
  {
    if names == [] then Ok([])
    else
      var init :- AllRangeConds(p, names[..|names| - 1]);
      var last :- RangeConds(p, names[|names| - 1]);
      Ok(init + last)
  }

  /** Once a prefix of the range parameters fails, the whole list fails the same way. */
  lemma {:induction false} AllRangeCondsErr(p: Params, names: seq<string>, i: nat)
    requires forall k :: 0 <= k < |names| ==> names[k] in RangeParams
    requires i <= |names| && AllRangeConds(p, names[..i]).Err?
    ensures AllRangeConds(p, names) == AllRangeConds(p, names[..i])
    decreases |names| - i
  {
    if i < |names| {
      assert names[..|names| - 1][..i] == names[..i];
      AllRangeCondsErr(p, names[..|names| - 1], i);
    } else {
      assert names[..i] == names;
    }
  }

  /** min_rcmds as the code is written: a percentage passes its own range
      check, is then turned into the fraction N/100 and falls into the
      integer check meant for the absolute form, which only 0% and 100%
      survive. */
  function MinRcmdsAsWritten(p: Params): Result<seq<Cond>, Error>
  {
    if !Given(p, "min_rcmds") then Ok([])
    else
      var v := p["min_rcmds"];
      if v[|v| - 1] == '%' then
        var t := v[..|v| - 1];
        if !IntvalMatches(t) then Err(InvalidParam("min_rcmds"))
        else
          var n := NumericPrefix(t);
          if n > 100 || n < 0 then Err(InvalidParam("min_rcmds"))
          else if n % 100 != 0 then Err(InvalidParam("min_rcmds"))
          else Ok([TopRatingsPercent(n), FoundsPositive, TopRatingsAtLeast(n / 100)])
      else PlainRcmdsConds(v)
  }

  /** Every percentage strictly between 0% and 100% is rejected by the code as written. */
  lemma MinRcmdsAsWrittenRejectsPercent(n: nat)
    requires 0 < n < 100
    ensures MinRcmdsAsWritten(map["min_rcmds" := DecimalString(n) + "%"]) == Err(InvalidParam("min_rcmds"))
  {
    var v := DecimalString(n) + "%";
    assert v[..|v| - 1] == DecimalString(n);
    DecimalIntval(n);
  }

  /** A decimal numeral passes the integer test and converts to its number. */
  lemma DecimalIntval(n: nat)
    ensures IntvalMatches(DecimalString(n)) && NumericPrefix(DecimalString(n)) == n
  {
    DecimalStringValue(n);
    IntvalDigitsThen(DecimalString(n), []);
    assert DecimalString(n) + [] == DecimalString(n);
  }

  /** min_rcmds as evidently intended: "N%" with N from 0 to 100 asks for at
      least N percent of the finders to recommend the cache; anything else
      that passes the integer test asks for at least that many
      recommendations. */
  function MinRcmdsConds(p: Params): (r: Result<seq<Cond>, Error>)
    ensures !Given(p, "min_rcmds") ==> r == Ok([])
    ensures r.Err? ==> r.error == InvalidParam("min_rcmds")
    ensures Given(p, "min_rcmds") && p["min_rcmds"][|p["min_rcmds"]| - 1] == '%' ==>
              var t := p["min_rcmds"][..|p["min_rcmds"]| - 1];
              && (r.Ok? <==> IntvalMatches(t) && 0 <= NumericPrefix(t) <= 100)
              && (r.Ok? ==> r.value == [TopRatingsPercent(NumericPrefix(t)), FoundsPositive])
    ensures Given(p, "min_rcmds") && p["min_rcmds"][|p["min_rcmds"]| - 1] != '%' ==>
              && (r.Ok? <==> IntvalMatches(p["min_rcmds"]))
              && (r.Ok? ==> r.value == [TopRatingsAtLeast(NumericPrefix(p["min_rcmds"]))])
  {
    if !Given(p, "min_rcmds") then Ok([])
    else
      var v := p["min_rcmds"];
      if v[|v| - 1] == '%' then PercentRcmdsConds(v[..|v| - 1])
      else PlainRcmdsConds(v)
  }

  /** "N%" with the sign stripped: N must pass the integer test and lie in 0..100. */
  function PercentRcmdsConds(t: string): (r: Result<seq<Cond>, Error>)
    ensures r.Err? ==> r.error == InvalidParam("min_rcmds")
    ensures r.Ok? <==> IntvalMatches(t) && 0 <= NumericPrefix(t) <= 100
    ensures r.Ok? ==> r.value == [TopRatingsPercent(NumericPrefix(t)), FoundsPositive]
  {
    if !IntvalMatches(t) then Err(InvalidParam("min_rcmds"))
    else
      var n := NumericPrefix(t);
      if n > 100 || n < 0 then Err(InvalidParam("min_rcmds"))
      else Ok([TopRatingsPercent(n), FoundsPositive])
  }

  /** An absolute number of recommendations: it must pass the integer test. */
  function PlainRcmdsConds(v: string): (r: Result<seq<Cond>, Error>)
    ensures r.Err? ==> r.error == InvalidParam("min_rcmds")
    ensures r.Ok? <==> IntvalMatches(v)
    ensures r.Ok? ==> r.value == [TopRatingsAtLeast(NumericPrefix(v))]
  {
    if !IntvalMatches(v) then Err(InvalidParam("min_rcmds"))
    else Ok([TopRatingsAtLeast(NumericPrefix(v))])
  }

  /** With the intended reading every percentage from 0% to 100% is accepted. */
  lemma MinRcmdsAcceptsPercent(n: nat)
    requires n <= 100
    ensures MinRcmdsConds(map["min_rcmds" := DecimalString(n) + "%"]) == Ok([TopRatingsPercent(n), FoundsPositive])
  {
    var v := DecimalString(n) + "%";
    assert v[..|v| - 1] == DecimalString(n);
    DecimalIntval(n);
  }

  /** `min_founds`: a value that passes the integer test. */
  function MinFoundsConds(p: Params): (r: Result<seq<Cond>, Error>)
    ensures !Given(p, "min_founds") ==> r == Ok([])
    ensures Given(p, "min_founds") ==>
              (r.Ok? <==> IntvalMatches(p["min_founds"]))
              && (r.Ok? ==> r.value == [FoundsAtLeast(NumericPrefix(p["min_founds"]))])
              && (r.Err? ==> r.error == InvalidParam("min_founds"))
  {
    if !Given(p, "min_founds") then Ok([])
    else if !IntvalMatches(p["min_founds"]) then Err(InvalidParam("min_founds"))
    else Ok([FoundsAtLeast(NumericPrefix(p["min_founds"]))])
  }

  /** `modified_since`: a date strtotime understands; a failed parse and the
      timestamp 0 (both false in PHP) are rejected. */
  function ModifiedSinceConds(p: Params, timestamps: map<string, int>): (r: Result<seq<Cond>, Error>)
    ensures !Given(p, "modified_since") ==> r == Ok([])
    ensures Given(p, "modified_since") ==>
              (r.Ok? <==> p["modified_since"] in timestamps && timestamps[p["modified_since"]] != 0)
              && (r.Err? ==> r.error == InvalidParam("modified_since"))
    ensures r.Ok? ==> forall c :: c in r.value ==> c.ModifiedAfter? && c.timestamp != 0
  {
    if !Given(p, "modified_since") then Ok([])
    else
      var v := p["modified_since"];
      if v in timestamps && timestamps[v] != 0 then Ok([ModifiedAfter(timestamps[v])])
      else Err(InvalidParam("modified_since"))
  }

  /** `found_status`: only with an Access Token, one of three values. */
  function FoundStatusConds(p: Params, hasToken: bool): (r: Result<seq<Cond>, Error>)
    ensures !Given(p, "found_status") ==> r == Ok([])
    ensures Given(p, "found_status") ==>
              (r.Ok? <==> hasToken && p["found_status"] in {"found_only", "unfound_only", "either"})
              && (r.Err? ==> r.error == InvalidParam("found_status"))
              && (r.Ok? ==> r.value == if p["found_status"] == "either" then []
                                       else [FoundByUser(p["found_status"] == "found_only")])
  {
    if !Given(p, "found_status") then Ok([])
    else if !hasToken then Err(InvalidParam("found_status"))
    else
      var v := p["found_status"];
      if v !in {"found_only", "unfound_only", "either"} then Err(InvalidParam("found_status"))
      else if v != "either" then Ok([FoundByUser(v == "found_only")])
      else Ok([])
  }

  /** `exclude_my_own`: only with an Access Token, "true" or "false". */
  function ExcludeMyOwnConds(p: Params, hasToken: bool): (r: Result<seq<Cond>, Error>)
    ensures !Given(p, "exclude_my_own") ==> r == Ok([])
    ensures Given(p, "exclude_my_own") ==>
              (r.Ok? <==> hasToken && p["exclude_my_own"] in {"true", "false"})
              && (r.Err? ==> r.error == InvalidParam("exclude_my_own"))
              && (r.Ok? ==> r.value == if p["exclude_my_own"] == "true" then [NotOwnedByUser] else [])
  {
    if !Given(p, "exclude_my_own") then Ok([])
    else if !hasToken then Err(InvalidParam("exclude_my_own"))
    else
      var v := p["exclude_my_own"];
      if v !in {"true", "false"} then Err(InvalidParam("exclude_my_own"))
      else if v == "true" then Ok([NotOwnedByUser])
      else Ok([])
  }

  /** `limit`: 100 by default, otherwise a value that passes the integer
      test and is from 1 to 1000. */
  function LimitValue(p: Params): (r: Result<int, Error>)
    ensures Blank(p, "limit") ==> r == Ok(100)
    ensures r.Ok? ==> 1 <= r.value <= 1000
    ensures !Blank(p, "limit") ==>
              (r.Ok? <==> IntvalMatches(p["limit"]) && 1 <= NumericPrefix(p["limit"]) <= 1000)
              && (r.Ok? ==> r.value == NumericPrefix(p["limit"]))
    ensures r.Err? ==> r.error == InvalidParam("limit")
  {
    if Blank(p, "limit") then Ok(100)
    else
      var v := p["limit"];
      if !IntvalMatches(v) then Err(InvalidParam("limit"))
      else
        var n := NumericPrefix(v);
        if n < 1 || n > 1000 then Err(InvalidParam("limit")) else Ok(n)
  }

  /** The default limit "100" passes the same checks as a given one, as 100. */
  lemma DefaultLimit()
    ensures IntvalMatches("100") && NumericPrefix("100") == 100
  {
    DecimalIntval(100);
    assert DecimalString(100) == "100" by {
      assert DecimalString(10) == "10" by {
        assert DecimalString(1) == "1";
      }
    }
  }

  /** All the checks in the code's order; the first failing parameter decides. */
  function SearchParamsSpec(p: Params, lookups: Lookups, hasToken: bool): (r: Result<SearchParams, Error>)
    ensures r.Ok? ==> 1 <= r.value.limit <= 1000
    ensures r.Ok? ==> |r.value.whereConds| >= 2 && r.value.whereConds[0] == True
    ensures r.Ok? ==> exists c :: c in r.value.whereConds && c.StatusIn?
    ensures (Given(p, "found_status") || Given(p, "exclude_my_own")) && !hasToken ==> r.Err?
  {
    var typeConds :- TypeConds(p, lookups.typeIds);
    var statusConds :- StatusConds(p, lookups.statusIds);
    var ownerConds :- OwnerConds(p, lookups.owners);
    var rangeConds :- AllRangeConds(p, RangeParams);
    var rcmdsConds :- MinRcmdsConds(p);
    var foundsConds :- MinFoundsConds(p);
    var modifiedConds :- ModifiedSinceConds(p, lookups.timestamps);
    var foundStatusConds :- FoundStatusConds(p, hasToken);
    var excludeConds :- ExcludeMyOwnConds(p, hasToken);
    var limit :- LimitValue(p);
    var conds := [True] + typeConds + statusConds + ownerConds + rangeConds + rcmdsConds
                 + foundsConds + modifiedConds + foundStatusConds + excludeConds;
    assert statusConds[0] in conds;
    Ok(SearchParams(conds, limit))
  }

  /** The `foreach` over the listed names, raising on the first unknown one. */
  method LookupNames(names: seq<string>, table: map<string, int>) returns (ids: Option<seq<int>>)
    ensures ids == LookupAll(names, table)
  {
    var found: seq<int> := [];
    for i := 0 to |names|
      invariant LookupAll(names[..i], table) == Some(found)
    {
      assert names[..i + 1][..i] == names[..i];
      if names[i] !in table {
        LookupAllUnknown(names, table, i);
        return None;
      }
      found := found + [table[names[i]]];
    }
    assert names[..|names|] == names;
    ids := Some(found);
  }

  lemma LookupAllUnknown(names: seq<string>, table: map<string, int>, i: nat)
    requires i < |names| && names[i] !in table
    ensures LookupAll(names, table) == None
  {
  }

  /** The loop over terrain, difficulty, size and rating. */
  method CollectRangeConds(p: Params) returns (r: Result<seq<Cond>, Error>)
    ensures r == AllRangeConds(p, RangeParams)
  {
    var conds: seq<Cond> := [];
    for i := 0 to |RangeParams|
      invariant AllRangeConds(p, RangeParams[..i]) == Ok(conds)
    {
      assert RangeParams[..i + 1][..i] == RangeParams[..i];
      var more := RangeConds(p, RangeParams[i]);
      if more.Err? {
        AllRangeCondsErr(p, RangeParams, i + 1);
        assert RangeParams[..|RangeParams|] == RangeParams;
        return Err(more.error);
      }
      conds := conds + more.value;
    }
    assert RangeParams[..|RangeParams|] == RangeParams;
    r := Ok(conds);
  }

  /** The `type` block: look up every listed cache type. */
  method CollectTypeConds(p: Params, typeIds: map<string, int>) returns (r: Result<seq<Cond>, Error>)
    ensures r == TypeConds(p, typeIds)
  {
    if !Given(p, "type") {
      return Ok([]);
    }
    var v := p["type"];
    var ids := LookupNames(TypeNames(v), typeIds);
    if ids.None? {
      return Err(InvalidParam("type"));
    }
    r := Ok([TypeIn(v[0] == '-', ids.value)]);
  }

  /** The `status` block: look up every listed status, "Available" by default. */
  method CollectStatusConds(p: Params, statusIds: map<string, int>) returns (r: Result<seq<Cond>, Error>)
    ensures r == StatusConds(p, statusIds)
  {
    var codes := LookupNames(Explode('|', StatusValue(p)), statusIds);
    if codes.None? {
      return Err(InvalidParam("status"));
    }
    r := Ok([StatusIn(codes.value)]);
  }

  /** `get_common_search_params`: the WHERE list grows parameter by
      parameter; the first rejected parameter ends the call. */
  method GetCommonSearchParams(p: Params, lookups: Lookups, hasToken: bool) returns (r: Result<SearchParams, Error>)
    ensures r == SearchParamsSpec(p, lookups, hasToken)
  {
    var typeConds :- CollectTypeConds(p, lookups.typeIds);
    var statusConds :- CollectStatusConds(p, lookups.statusIds);
    var ownerConds :- OwnerConds(p, lookups.owners);
    var rangeConds :- CollectRangeConds(p);
    var rcmdsConds :- MinRcmdsConds(p);
    var foundsConds :- MinFoundsConds(p);
    var modifiedConds :- ModifiedSinceConds(p, lookups.timestamps);
    var foundStatusConds :- FoundStatusConds(p, hasToken);
    var excludeConds :- ExcludeMyOwnConds(p, hasToken);
    var limit :- LimitValue(p);
    var conds := [True] + typeConds + statusConds + ownerConds + rangeConds + rcmdsConds
                 + foundsConds + modifiedConds + foundStatusConds + excludeConds;
    r := Ok(SearchParams(conds, limit));
  }

  /** `get_common_search_result`: the query fetches at most limit + 1 of the
      matching cache codes, in the query's order; "more" says whether there
      were more than `limit`, and the extra one is dropped. */
  method GetCommonSearchResult(rows: seq<string>, limit: nat) returns (results: seq<string>, more: bool)
    ensures more <==> |rows| > limit
    ensures |results| <= limit
    ensures results == if more then rows[..limit] else rows
  {
    var fetched := if |rows| > limit + 1 then rows[..limit + 1] else rows;
    var cacheCodes: seq<string> := [];
    var i := 0;
    while i < |fetched|
      invariant 0 <= i <= |fetched|
      invariant cacheCodes == fetched[..i]
    {
      cacheCodes := cacheCodes + [fetched[i]];
      i := i + 1;
    }
    assert fetched[..|fetched|] == fetched;
    if |cacheCodes| > limit {
      more := true;
      cacheCodes := cacheCodes[..|cacheCodes| - 1];
    } else {
      more := false;
    }
    results := cacheCodes;
  }
}
