/** npmpackument.go: the version filter over an npm packument and the repointing of the
    dist-tags it disturbs. Go iterates maps in random order, so every loop over a map here
    picks its next key arbitrarily. */
module Packument {
  import opened GoStrings
  import opened Semver
  import opened SemverSpec

  // ---------------------------------------------------------------- the document

  /** A dist-tag's JSON value: a version string, or something that is not a string. */
  datatype TagValue = Named(version: string) | NotAString

  datatype Facts = Facts(version: string, published: Option<int>, inPackument: bool)

  datatype Cause = ByWindow | ByMalware | ByOperator

  /** None keeps the version; a cause refuses it. */
  type Refuser = Facts -> Option<Cause>

  /** The `time` object, absent when the document has none; None for a time that does not parse. */
  type Times = Option<map<string, Option<int>>>

  function FactsOf(v: string, time: Times): Facts {
    Facts(v, if time.Some? && v in time.value then time.value[v] else None, true)
  }

  predicate Refused(v: string, time: Times, refuse: Refuser) {
    refuse(FactsOf(v, time)).Some?
  }

  /** A version is judged with the time the document gives it, and as one of a packument. */
  lemma JudgedWithItsTime(v: string, times: map<string, Option<int>>, time: Times, refuse: Refuser)
    ensures time.None? || v !in time.value ==> (Refused(v, time, refuse) <==> refuse(Facts(v, None, true)).Some?)
    ensures v in times ==> (Refused(v, Some(times), refuse) <==> refuse(Facts(v, times[v], true)).Some?)
  {
  }

  /** The version a tag names; a value that is not a string reads as "". */
  function Target(t: TagValue): string {
    if t.Named? then t.version else ""
  }

  // ---------------------------------------------------------------- where a tag may point

  predicate Older(v: string, removed: string) {
    v != "" && SemverCompare(v, removed) <= 0
  }

  predicate SameClass(v: string, removed: string) {
    Older(v, removed) && SemverIsPrerelease(v) == SemverIsPrerelease(removed)
  }

  /** Not newer and of the same class if there is one; else not newer; else any. */
  ghost predicate Preferred(v: string, removed: string, remaining: set<string>) {
    && v in remaining
    && if exists u :: u in remaining && SameClass(u, removed) then SameClass(v, removed)
       else if exists u :: u in remaining && Older(u, removed) then Older(v, removed)
       else v != ""
  }

  ghost predicate Newest(to: string, removed: string, remaining: set<string>) {
    && Preferred(to, removed, remaining)
    && forall v :: Preferred(v, removed, remaining) ==> SemverCompare(v, to) <= 0
  }

  /** Two maxima of one candidate set are the same version up to semver equality, whatever
      order the map was walked in. */
  lemma NewestUnique(a: string, b: string, removed: string, remaining: set<string>)
    requires Newest(a, removed, remaining) && Newest(b, removed, remaining)
    ensures SemverCompare(a, b) == 0
  {
    CompareAntisymmetric(a, b);
  }

  lemma EmptyNoVersion(text: string)
    requires text == ""
    ensures !ParseSemver(text).ok && TrimSpace(text) == ""
  {
    hide CoreNumbers;
    SplitStep(text, '.');
    hide Split;
    assert TrimPrefix(text, "v") == text && CutBuild(text) == text && IndexByte(text, '-') < 0;
  }

  lemma EmptyBelow(text: string)
    ensures Compare("", text) <= 0
  {
  }

  lemma EmptyIsLeast(v: string)
    ensures SemverCompare("", v) <= 0
  {
    hide ParseSemver, CompareParsed, TrimSpace, Compare;
    EmptyNoVersion("");
    EmptyBelow(TrimSpace(v));
  }

  /** Inserting v into a running maximum keeps it a maximum. */
  lemma MaxStep(u: string, best: string, v: string)
    requires SemverCompare(u, best) <= 0 && SemverCompare(v, best) > 0
    ensures SemverCompare(u, v) <= 0
  {
    CompareAntisymmetric(v, best);
    CompareTransitive(u, best, v);
  }

  /** best is a maximum of the versions among seen that satisfy ok, or "" when there is none. */
  ghost predicate BestOf(best: string, seen: set<string>, ok: string -> bool) {
    && (best == "" ==> forall u :: u in seen ==> !ok(u))
    && (best != "" ==> best in seen && ok(best) && forall u :: u in seen && ok(u) ==> SemverCompare(u, best) <= 0)
  }

  lemma BestStep(best: string, seen: set<string>, v: string, ok: string -> bool)
    requires BestOf(best, seen, ok)
    requires forall u :: ok(u) ==> u != ""
    ensures ok(v) ==> BestOf(if best == "" || SemverCompare(v, best) > 0 then v else best, seen + {v}, ok)
    ensures !ok(v) ==> BestOf(best, seen + {v}, ok)
  {
    hide SemverCompare, SemverIsPrerelease;
    CompareReflexive(v);
    if ok(v) && best != "" && SemverCompare(v, best) > 0 {
      forall u | u in seen && ok(u) ensures SemverCompare(u, v) <= 0 {
        MaxStep(u, best, v);
      }
    }
  }

  lemma EmptyNeverWins(best: string)
    ensures (if best == "" || SemverCompare("", best) > 0 then "" else best) == best
  {
    EmptyIsLeast(best);
  }

  method RepointTag(removed: string, remaining: seq<string>) returns (to: string)
    ensures to == "" <==> forall v :: v in remaining ==> v == ""
    ensures to != "" ==> Newest(to, removed, set v | v in remaining)
  {
    hide SemverCompare, SemverIsPrerelease;
    ghost var older := v => Older(v, removed);
    ghost var same := v => SameClass(v, removed);
    if |remaining| == 0 {
      return "";
    }
    var wantPre := SemverIsPrerelease(removed);
    var best, bestSame := "", "";
    ghost var seen: set<string> := {};
    for i := 0 to |remaining|
      invariant seen == set v | v in remaining[..i]
      invariant BestOf(best, seen, older) && BestOf(bestSame, seen, same)
    {
      var v := remaining[i];
      assert remaining[..i + 1] == remaining[..i] + [v];
      BestStep(best, seen, v, older);
      BestStep(bestSame, seen, v, same);
      EmptyNeverWins(best);
      EmptyNeverWins(bestSame);
      seen := seen + {v};
      if SemverCompare(v, removed) > 0 {
        continue;
      }
      if best == "" || SemverCompare(v, best) > 0 {
        best := v;
      }
      if SemverIsPrerelease(v) == wantPre && (bestSame == "" || SemverCompare(v, bestSame) > 0) {
        bestSame := v;
      }
    }
    assert remaining[..|remaining|] == remaining;
    if bestSame != "" {
      assert same(bestSame);
      return bestSame;
    }
    if best != "" {
      assert older(best);
      return best;
    }
    assert forall u :: u in remaining ==> !older(u) && !same(u);
    to := NewestOf(remaining);
    NothingOlder(to, removed, remaining);
  }

  method NewestOf(remaining: seq<string>) returns (newest: string)
    requires |remaining| > 0
    ensures newest in remaining
    ensures forall v :: v in remaining ==> SemverCompare(v, newest) <= 0
  {
    hide SemverCompare, SemverIsPrerelease;
    newest := remaining[0];
    CompareReflexive(newest);
    for i := 1 to |remaining|
      invariant newest in remaining
      invariant forall k :: 0 <= k < i ==> SemverCompare(remaining[k], newest) <= 0
    {
      if SemverCompare(remaining[i], newest) > 0 {
        forall k | 0 <= k < i ensures SemverCompare(remaining[k], remaining[i]) <= 0 {
          MaxStep(remaining[k], newest, remaining[i]);
        }
        newest := remaining[i];
        CompareReflexive(newest);
      }
    }
  }

  /** When nothing older remains, the newest of all is "" only if "" is all that remains. */
  lemma NothingOlder(newest: string, removed: string, remaining: seq<string>)
    requires newest in remaining && forall v :: v in remaining ==> SemverCompare(v, newest) <= 0
    requires forall u :: u in remaining ==> !Older(u, removed)
    ensures newest == "" <==> forall v :: v in remaining ==> v == ""
    ensures newest != "" ==> Newest(newest, removed, set v | v in remaining)
  {
    hide SemverCompare, SemverIsPrerelease;
    if newest == "" {
      forall v | v in remaining ensures v == "" {
        if v != "" {
          EmptyIsLeast(removed);
          CompareTransitive(v, "", removed);
        }
      }
    }
  }

  // ---------------------------------------------------------------- the filter

  datatype FilterResult = FilterResult(
    removed: set<string>, remaining: nat, repointed: map<string, (string, string)>)

  /** What reconciling leaves of the dist-tags: a tag on a surviving version is untouched; a
      tag on a removed one moves to a newest preferred version, or is dropped when only ""
      or nothing remains. */
  ghost predicate Reconciled(before: map<string, TagValue>, after: map<string, TagValue>,
                             removed: set<string>, remaining: set<string>) {
    && after.Keys <= before.Keys
    && forall t :: t in before ==> TagReconciled(t, before, after, removed, remaining)
  }

  ghost predicate TagReconciled(t: string, before: map<string, TagValue>, after: map<string, TagValue>,
                                removed: set<string>, remaining: set<string>)
    requires t in before
  {
    var target := Target(before[t]);
    if target !in removed then t in after && after[t] == before[t]
    else if exists v :: v in remaining && v != "" then
      t in after && after[t].Named? && Newest(after[t].version, target, remaining)
    else t !in after
  }

  function WithoutKeys(time: Times, removed: set<string>): Times {
    if time.Some? then Some(time.value - removed) else None
  }

  class Document {
    var versions: map<string, string>  // version -> its manifest
    var time: Times
    var tags: Option<map<string, TagValue>>

    constructor (versions: map<string, string>, time: Times, tags: Option<map<string, TagValue>>)
      ensures this.versions == versions && this.time == time && this.tags == tags
    {
      this.versions, this.time, this.tags := versions, time, tags;
    }

    method FindRefused(refuse: Refuser) returns (removed: set<string>)
      ensures removed == set v | v in versions && Refused(v, time, refuse)
    {
      removed := {};
      var todo := versions.Keys;
      while todo != {}
        invariant todo <= versions.Keys
        invariant removed == set v | v in versions && v !in todo && Refused(v, time, refuse)
      {
        var v :| v in todo;
        if refuse(FactsOf(v, time)).Some? {
          removed := removed + {v};
        }
        todo := todo - {v};
      }
    }

    method Remaining() returns (remaining: seq<string>)
      ensures (set v | v in remaining) == versions.Keys
    {
      remaining := [];
      var todo := versions.Keys;
      while todo != {}
        invariant todo <= versions.Keys
        invariant (set v | v in remaining) == versions.Keys - todo
      {
        var v :| v in todo;
        ghost var was := set u | u in remaining;
        remaining := remaining + [v];
        todo := todo - {v};
        assert (set u | u in remaining) == was + {v};
      }
    }

    method Reconcile(removed: set<string>, remaining: seq<string>) returns (repointed: map<string, (string, string)>)
      requires tags.Some?
      modifies this`tags
      ensures tags.Some?
      ensures Reconciled(old(tags).value, tags.value, removed, set v | v in remaining)
      ensures repointed.Keys == set t | t in old(tags).value && Target(old(tags).value[t]) in removed
    {
      hide SemverCompare, SemverIsPrerelease;
      ghost var before := tags.value;
      ghost var rest := set v | v in remaining;
      repointed := map[];
      var todo := tags.value.Keys;
      while todo != {}
        invariant todo <= before.Keys && tags.Some? && tags.value.Keys <= before.Keys
        invariant forall t :: t in todo ==> t in tags.value && tags.value[t] == before[t]
        invariant forall t :: t in before && t !in todo ==> TagReconciled(t, before, tags.value, removed, rest)
        invariant repointed.Keys == set t | t in before && t !in todo && Target(before[t]) in removed
      {
        var tag :| tag in todo;
        todo := todo - {tag};
        var target := Target(tags.value[tag]);
        if target in removed {
          var to := RepointTag(target, remaining);
          repointed := repointed[tag := (target, to)];
          if to == "" {
            tags := Some(tags.value - {tag});
          } else {
            assert to in rest;
            tags := Some(tags.value[tag := Named(to)]);
          }
        }
      }
    }

    /** Removes every refused version and leaves no tag on one. */
    method Filter(refuse: Refuser) returns (res: FilterResult)
      modifies this
      ensures res.removed == set v | v in old(versions) && Refused(v, old(time), refuse)
      ensures versions == old(versions) - res.removed
      ensures res.remaining == |versions|
      ensures time == WithoutKeys(old(time), res.removed)
      ensures tags.Some? <==> old(tags).Some?
      ensures tags.Some? ==> Reconciled(old(tags).value, tags.value, res.removed, versions.Keys)
      ensures res.removed == {} ==> tags == old(tags) && res.repointed == map[]
    {
      hide *;
      var removed := FindRefused(refuse);
      if removed == {} {
        NothingToReconcile(tags, time, versions);
        return FilterResult({}, |versions|, map[]);
      }
      versions := versions - removed;
      time := WithoutKeys(time, removed);
      var repointed := map[];
      if tags.Some? {
        var remaining := Remaining();
        repointed := Reconcile(removed, remaining);
      }
      res := FilterResult(removed, |versions|, repointed);
    }

    /** A filtered packument filtered again by the same verdicts is left alone. */
    method FilterTwice(refuse: Refuser) returns (first: FilterResult, second: FilterResult)
      modifies this
      ensures second.removed == {} && second.repointed == map[]
      ensures versions == old(versions) - first.removed
    {
      first := Filter(refuse);
      hide *;
      forall v | v in versions ensures !Refused(v, time, refuse) {
        FactsKept(v, old(time), first.removed, refuse);
      }
      second := Filter(refuse);
    }
  }

  lemma NothingToReconcile(tags: Option<map<string, TagValue>>, time: Times, versions: map<string, string>)
    ensures tags.Some? ==> Reconciled(tags.value, tags.value, {}, versions.Keys)
    ensures WithoutKeys(time, {}) == time && versions - {} == versions
  {
    assert time.Some? ==> time.value - {} == time.value;
  }

  lemma FactsKept(v: string, time: Times, removed: set<string>, refuse: Refuser)
    requires v !in removed
    ensures Refused(v, WithoutKeys(time, removed), refuse) == Refused(v, time, refuse)
  {
  }

  /** After reconciling, no tag names a removed version: a moved tag names a surviving one. */
  lemma NoTagOnRemoved(before: map<string, TagValue>, after: map<string, TagValue>,
                       removed: set<string>, remaining: set<string>, t: string)
    requires Reconciled(before, after, removed, remaining) && removed !! remaining
    requires t in after
    ensures Target(after[t]) !in removed
    ensures after[t] != before[t] ==> after[t].Named? && after[t].version in remaining
  {
    assert TagReconciled(t, before, after, removed, remaining);
  }

  /** `latest` and every other tag roll back, never forward, while anything not newer remains. */
  lemma TagsRollBack(before: map<string, TagValue>, after: map<string, TagValue>,
                     removed: set<string>, remaining: set<string>, t: string, u: string)
    requires Reconciled(before, after, removed, remaining)
    requires t in before && Target(before[t]) in removed
    requires u in remaining && Older(u, Target(before[t]))
    ensures t in after && SemverCompare(Target(after[t]), Target(before[t])) <= 0
    ensures SameClass(u, Target(before[t])) ==>
              SemverIsPrerelease(Target(after[t])) == SemverIsPrerelease(Target(before[t]))
  {
    hide SemverCompare, SemverIsPrerelease;
    assert TagReconciled(t, before, after, removed, remaining);
  }

  lemma ClassIs(v: Version)
    requires Valid(v) && Faithful(v)
    ensures SemverIsPrerelease(Render(v)) <==> v.pre != []
    ensures Render(v) != ""
  {
    hide SemverIsPrerelease, Render;
    PrereleaseExactly(v);
    RendersText(v);
  }

  lemma RendersText(v: Version)
    requires Valid(v)
    ensures Render(v) != ""
  {
    JoinEnds(v.core, '.');
    hide Join;
  }

  /** The tag law in the standard's own terms: a tag on a removed release, while a release that is
      not newer remains, lands on a release, never on a prerelease, that is not newer than the one
      removed and not older than any such release that remains; and a tag on a removed prerelease
      lands likewise on a prerelease. */
  lemma TagKeepsItsClass(before: map<string, TagValue>, after: map<string, TagValue>, removed: set<string>,
      remaining: set<string>, t: string, v: Version, w: Version, u: Version)
    requires Reconciled(before, after, removed, remaining)
    requires Valid(v) && Faithful(v) && Valid(w) && Faithful(w) && (v.pre == [] <==> w.pre == [])
    requires t in before && before[t] == Named(Render(v)) && Render(v) in removed
    requires Render(w) in remaining && Precedence(w, v) <= 0
    ensures t in after && after[t].Named? && after[t].version in remaining
    ensures v.pre == [] ==>
              ParseSemver(after[t].version).ok && ParseSemver(after[t].version).pre == []
    ensures Valid(u) && Faithful(u) && after[t].version == Render(u) ==>
              (u.pre == [] <==> v.pre == []) && Precedence(u, v) <= 0 && Precedence(w, u) <= 0
  {
    hide Valid, Faithful, Render, Precedence, SemverCompare, SemverIsPrerelease;
    ClassIs(v);
    ClassIs(w);
    CompareIsPrecedence(w, v);
    assert TagReconciled(t, before, after, removed, remaining);
    assert SameClass(Render(w), Render(v));
    var x := after[t].version;
    assert Preferred(x, Render(v), remaining) && Preferred(Render(w), Render(v), remaining);
    NotPrerelease(x);
    if Valid(u) && Faithful(u) && x == Render(u) {
      ClassIs(u);
      CompareIsPrecedence(u, v);
      CompareIsPrecedence(w, u);
    }
  }

  lemma NotPrerelease(x: string)
    ensures !SemverIsPrerelease(x) ==> ParseSemver(x).ok && ParseSemver(x).pre == []
  {
    hide ParseSemver;
  }
}
