/** The schema-migration stepper of the okapi/update view: it reads the
    persisted db_version, finds the highest mutation `ver<N>` the view class
    defines, and runs the missing mutations one by one, recording each
    version as soon as its mutation has succeeded. The mutations themselves
    are opaque steps; whether mutation v fails is given by an oracle. */
module Update {
  import opened Wrappers
  import opened Php

  /** The version a method name stands for: for a name starting with "ver",
      PHP's numeric reading of the rest; 0 (which never raises the maximum)
      for every other name. */
  function NameVersion(name: string): int {
    if |name| >= 3 && name[..3] == "ver" then NumericPrefix(name[3..]) else 0
  }

  /** The versions the names stand for, in order. */
  function Versions(names: seq<string>): (vs: seq<int>)
    ensures |vs| == |names|
  {
    if names == [] then [] else Versions(names[..|names| - 1]) + [NameVersion(names[|names| - 1])]
  }

  lemma {:induction false} VersionsAt(names: seq<string>, i: nat)
    requires i < |names|
    ensures Versions(names)[i] == NameVersion(names[i])
  {
    if i < |names| - 1 {
      var init := names[..|names| - 1];
      VersionsAt(init, i);
      assert init[i] == names[i];
    }
  }

  /** The highest of `vs` and 0. */
  function MaxOf(vs: seq<int>): (m: int)
    ensures m >= 0
  {
    if vs == [] then 0
    else
      var m := MaxOf(vs[..|vs| - 1]);
      if vs[|vs| - 1] > m then vs[|vs| - 1] else m
  }

  /** The maximum bounds every element and, unless it is 0, is one of them. */
  lemma {:induction false} MaxOfIsMax(vs: seq<int>)
    ensures forall i :: 0 <= i < |vs| ==> vs[i] <= MaxOf(vs)
    ensures MaxOf(vs) == 0 || exists i :: 0 <= i < |vs| && vs[i] == MaxOf(vs)
  {
    if vs != [] {
      var init := vs[..|vs| - 1];
      MaxOfIsMax(init);
      assert forall i :: 0 <= i < |init| ==> init[i] == vs[i];
    }
  }

  /** The highest version among the class's method names, 0 when no name
      stands for a positive version. */
  function MaxVersion(names: seq<string>): (m: int)
    ensures m >= 0
  {
    MaxOf(Versions(names))
  }

  /** Every name's version is at most the maximum, and a positive maximum is
      the version of one of the names. */
  lemma MaxVersionIsMax(names: seq<string>)
    ensures forall i :: 0 <= i < |names| ==> NameVersion(names[i]) <= MaxVersion(names)
    ensures MaxVersion(names) == 0 || exists i :: 0 <= i < |names| && NameVersion(names[i]) == MaxVersion(names)
  {
    var vs := Versions(names);
    MaxOfIsMax(vs);
    forall i | 0 <= i < |names|
      ensures NameVersion(names[i]) <= MaxVersion(names)
    {
      VersionsAt(names, i);
    }
    if MaxVersion(names) != 0 {
      var k :| 0 <= k < |vs| && vs[k] == MaxOf(vs);
      VersionsAt(names, k);
    }
  }

  /** One more name raises the maximum to its version when that is higher. */
  lemma MaxVersionSnoc(names: seq<string>, i: nat)
    requires i < |names|
    ensures MaxVersion(names[..i + 1]) ==
            if NameVersion(names[i]) > MaxVersion(names[..i]) then NameVersion(names[i]) else MaxVersion(names[..i])
  {
    var p := names[..i + 1];
    assert p[..|p| - 1] == names[..i];
    var vs := Versions(p);
    assert vs == Versions(names[..i]) + [NameVersion(names[i])];
    assert vs[..|vs| - 1] == Versions(names[..i]);
  }

  /** `get_max_version`: a running maximum over the class's method names. */
  method GetMaxVersion(names: seq<string>) returns (max: int)
    ensures max == MaxVersion(names)
  {
    max := 0;
    for i := 0 to |names|
      invariant max == MaxVersion(names[..i])
    {
      MaxVersionSnoc(names, i);
      var name := names[i];
      if |name| >= 3 && name[..3] == "ver" {
        var ver := NumericPrefix(name[3..]);
        if ver > max {
          max := ver;
        }
      }
    }
    assert names[..|names|] == names;
  }

  /** The first version from `from` to `max` whose mutation fails, or max + 1
      when none of them fails. */
  function FirstFailure(from: int, max: int, failing: set<int>): (v: int)
    requires from <= max + 1
    ensures from <= v <= max + 1
    ensures forall w :: from <= w < v ==> w !in failing
    ensures v <= max ==> v in failing
    decreases max + 1 - from
  {
    if from > max || from in failing then from else FirstFailure(from + 1, max, failing)
  }

  /** lo, lo + 1, ..., hi - 1. */
  function Range(lo: int, hi: int): (r: seq<int>)
    requires lo <= hi
    ensures |r| == hi - lo
    ensures forall i :: 0 <= i < |r| ==> r[i] == lo + i
  {
    seq(hi - lo, i => lo + i)
  }

  /** How a run ends: nothing to do, all mutations applied, an exception
      because the database is newer than the code, or the exception a failed
      mutation raised. */
  datatype RunResult = UpToDate | Updated | VersionAhead | MutationFailed(version: int)

  /** The persisted state the view reads and writes. */
  class Migrator {
    /** okapi_vars.db_version; None while it was never set. */
    var dbVersion: Option<int>
    /** okapi_vars.cron_nearest_event. */
    var cronNearestEvent: Option<int>
    /** The mutations applied to the database so far, in the order they ran. */
    var applied: seq<int>

    constructor (dbVersion: Option<int>, cronNearestEvent: Option<int>)
      ensures this.dbVersion == dbVersion && this.cronNearestEvent == cronNearestEvent
      ensures applied == []
    {
      this.dbVersion := dbVersion;
      this.cronNearestEvent := cronNearestEvent;
      applied := [];
    }

    /** `get_current_version`: db_version, or 0 when it is not set. */
    function CurrentVersion(): int
      reads this
    {
      dbVersion.GetOr(0)
    }

    /** The `while` loop of `call`: apply mutations from + 1 up to max in
        ascending order, recording each version once its mutation succeeded,
        and stop at the first one that fails. */
    method ApplyMutations(from: int, max: int, failing: set<int>) returns (failed: Option<int>)
      requires from < max
      modifies this`applied, this`dbVersion
      ensures var stop := FirstFailure(from + 1, max, failing);
              && applied == old(applied) + Range(from + 1, stop)
              && dbVersion == (if stop == from + 1 then old(dbVersion) else Some(stop - 1))
              && failed == (if stop <= max then Some(stop) else None)
    {
      var cur := from;
      while cur < max
        invariant from <= cur <= max
        invariant forall w :: from < w <= cur ==> w !in failing
        invariant applied == old(applied) + Range(from + 1, cur + 1)
        invariant dbVersion == if cur == from then old(dbVersion) else Some(cur)
      {
        var v := cur + 1;
        if v in failing {
          ghost var stop := FirstFailure(from + 1, max, failing);
          assert stop == v by {
            assert stop <= v;
          }
          return Some(v);
        }
        RangeSnoc(from + 1, cur + 1);
        applied := applied + [v];
        dbVersion := Some(v);
        cur := cur + 1;
      }
      failed := None;
    }

    /** One run of the view, given the class's method names and the versions
        whose mutations fail. */
    method Call(names: seq<string>, failing: set<int>) returns (result: RunResult)
      modifies this
      ensures var cur := old(CurrentVersion());
              var max := MaxVersion(names);
              && (max < cur ==> result == VersionAhead && applied == old(applied)
                                && dbVersion == old(dbVersion) && cronNearestEvent == old(cronNearestEvent))
              && (max == cur ==> result == UpToDate && applied == old(applied)
                                 && dbVersion == old(dbVersion) && cronNearestEvent == Some(0))
              && (max > cur ==>
                    var stop := FirstFailure(cur + 1, max, failing);
                    && applied == old(applied) + Range(cur + 1, stop)
                    && dbVersion == (if stop == cur + 1 then old(dbVersion) else Some(stop - 1))
                    && (stop <= max ==> result == MutationFailed(stop) && cronNearestEvent == old(cronNearestEvent))
                    && (stop > max ==> result == Updated && cronNearestEvent == Some(0)))
      // db_version names the last mutation that succeeded
      ensures |applied| > |old(applied)| ==> dbVersion == Some(applied[|applied| - 1])
      ensures result == Updated || result == UpToDate ==> CurrentVersion() == MaxVersion(names)
      ensures result.MutationFailed? ==> CurrentVersion() == result.version - 1
    {
      var cur := CurrentVersion();
      var max := GetMaxVersion(names);
      if max == cur {
        result := UpToDate;
      } else if max < cur {
        return VersionAhead;
      } else {
        var failed := ApplyMutations(cur, max, failing);
        if failed.Some? {
          return MutationFailed(failed.value);
        }
        result := Updated;
      }
      cronNearestEvent := Some(0);
    }
  }

  lemma RangeSnoc(lo: int, hi: int)
    requires lo <= hi
    ensures Range(lo, hi + 1) == Range(lo, hi) + [hi]
  {
  }
}
