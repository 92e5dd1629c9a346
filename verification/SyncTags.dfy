/** Where a run leaves group tags wrong. The program compares a new tag with the user's UUID instead of the
    old tag (src/libvxmdsync/proc.c:117), and the tool skips all modifications when no timer changes. */
module SyncTags {
  import opened Prelude
  import opened OrderedMap
  import opened Vxdb
  import opened SyncSpec
  import opened SyncOutcome
  import opened SyncRun
  import opened SyncHistory

  /** A listed member ends an uninterrupted run with the listed group tag if and only if the tag differs
      from the user's UUID, with which the program compares it, and modifications are not skipped; or if
      it was right before. */
  lemma TagRightIff(site: Site, us: seq<User>, t: Turn, after: seq<User>, name: string)
    requires ValidDb(us, site.cfg.group) && Step(site, us, t, after) && t.cut.None? && Find(us, name).Some?
    requires var u := Find(us, name).value; Member(site.cfg.group, u) && Present(u, JobOf(site, t))
    ensures Find(after, name).Some?
    ensures var u := Find(us, name).value;
            var tag := Lookup(t.eds, u.uuid.value).value.pvgrp;
            Find(after, name).value.pvgrp == Some(tag) <==> (tag != u.uuid.value && t.parts.mod) || u.pvgrp == Some(tag)
  {
    var job := JobOf(site, t);
    var i := FindIsIn(us, name);
    var tag, timer, removed := Fate(site, us, t, after, name);
    var op := SetPvgrp(name, TagOf(us[i], job));
    OpsIff(us, i, job, op);
    TagRequests(us, job, t.parts, op);
  }

  /** Requests for group tags are among the modifications. */
  lemma TagRequests(us: seq<User>, job: Job, parts: Parts, op: Op)
    requires op.SetPvgrp?
    ensures op in PartOps(us, job, parts) <==> parts.mod && op in Ops(us, job)
  {
    InRemoveOps(Decided(us, |us|, job, DeleteNow), op);
  }

  /** The tool leaves the modifications out when there is no timer to start or to stop, group tags
      included. */
  function ToolParts(us: seq<User>, job: Job, agreed: Parts): Parts {
    agreed.(mod := agreed.mod && (Decided(us, |us|, job, Start) != [] || Decided(us, |us|, job, KeepStop) != []))
  }

  /** So in the tool a wrong tag is put right if and only if it differs from the user's UUID, modifications
      are agreed to, and the run changes somebody's timer. */
  lemma TagsWaitForTimers(site: Site, us: seq<User>, t: Turn, agreed: Parts, after: seq<User>, name: string)
    requires ValidDb(us, site.cfg.group) && Step(site, us, t, after) && t.cut.None? && Find(us, name).Some?
    requires var u := Find(us, name).value; Member(site.cfg.group, u) && Present(u, JobOf(site, t))
    requires t.parts == ToolParts(us, JobOf(site, t), agreed)
    ensures Find(after, name).Some?
    ensures var u, job := Find(us, name).value, JobOf(site, t);
            var tag := Lookup(t.eds, u.uuid.value).value.pvgrp;
            Find(after, name).value.pvgrp == Some(tag) <==>
              (tag != u.uuid.value && agreed.mod && exists i :: 0 <= i < |us| && WantsTimer(us[i], job))
              || u.pvgrp == Some(tag)
  {
    var job := JobOf(site, t);
    TagRightIff(site, us, t, after, name);
    if t.parts.mod {
      var i := SomeoneDecided(us, |us|, job, if Decided(us, |us|, job, Start) != [] then Start else KeepStop);
      DecisionAtIsFor(us, i, job);
    }
    if i :| 0 <= i < |us| && WantsTimer(us[i], job) {
      DecisionAtIsFor(us, i, job);
      DecidedIff(us, |us|, i, job, Start);
      DecidedIff(us, |us|, i, job, KeepStop);
    }
  }

  lemma {:induction false} SomeoneDecided(us: seq<User>, n: nat, job: Job, d: Decision) returns (i: nat)
    requires n <= |us| && Decided(us, n, job, d) != []
    ensures i < n && DecisionAt(us, i, job) == d
  {
    if DecisionAt(us, n - 1, job) == d {
      i := n - 1;
    } else {
      i := SomeoneDecided(us, n - 1, job, d);
    }
  }
}
