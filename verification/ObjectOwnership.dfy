/** The key format of the workers gives every object one run, which is what cleanup relies on. */
module ObjectOwnership {
  import opened ObjectKeys
  import opened ObjectCleanup
  import opened ObjectCleanupSafety

  /** Run ids have different names, and no name holds a slash. */
  ghost predicate NamesRuns(name: Id -> string) {
    && (forall r, r' | name(r) == name(r') :: r == r')
    && (forall r :: '/' !in name(r))
  }

  /** The key was built for this run. */
  ghost predicate BuiltFor(key: string, run: Id, name: Id -> string) {
    exists dataset: string, part: nat, file: nat :: key == ObjectKey(dataset, name(run), part, file)
  }

  /** Every artifact and upload is stored under a key built for its run. */
  ghost predicate KeysFollowFormat(t: Tables, name: Id -> string) {
    && (forall k | k in t.artifacts :: BuiltFor(k, t.artifacts[k].run, name))
    && (forall u | u in t.uploads :: BuiltFor(t.uploads[u].key, t.uploads[u].run, name))
  }

  /** The run that a key names. */
  ghost function OwnerOf(key: string, name: Id -> string): Id {
    if r :| BuiltFor(key, r, name) then r else 0
  }

  lemma BuiltForOne(key: string, r: Id, r': Id, name: Id -> string)
    requires NamesRuns(name) && BuiltFor(key, r, name) && BuiltFor(key, r', name)
    ensures r == r'
  {
    hide ObjectKey;
    var dataset: string, part: nat, file: nat :| key == ObjectKey(dataset, name(r), part, file);
    var dataset': string, part': nat, file': nat :| key == ObjectKey(dataset', name(r'), part', file');
    KeyNamesRun(dataset, name(r), part, file, dataset', name(r'), part', file');
  }

  lemma OwnerIsBuiltFor(key: string, r: Id, name: Id -> string)
    requires NamesRuns(name) && BuiltFor(key, r, name)
    ensures OwnerOf(key, name) == r
  {
    hide BuiltFor;
    BuiltForOne(key, r, OwnerOf(key, name), name);
  }

  /** Tables whose keys follow the format are owned, by one owner function for all of them. */
  lemma FormatOwns(t: Tables, name: Id -> string)
    requires NamesRuns(name) && KeysFollowFormat(t, name)
    ensures OwnedTables(t, key => OwnerOf(key, name))
  {
    hide BuiltFor, OwnerOf, NamesRuns;
    forall k | k in t.artifacts
      ensures OwnerOf(k, name) == t.artifacts[k].run
    {
      OwnerIsBuiltFor(k, t.artifacts[k].run, name);
    }
    forall u | u in t.uploads
      ensures OwnerOf(t.uploads[u].key, name) == t.uploads[u].run
    {
      OwnerIsBuiltFor(t.uploads[u].key, t.uploads[u].run, name);
    }
  }

  /** Everything the rest of the system stores follows the format. */
  ghost predicate RunFollowsFormat(ss: seq<Step>, name: Id -> string) {
    forall i | 0 <= i < |ss| && ss[i].OtherStep? :: KeysFollowFormat(ss[i].tables, name)
  }

  /**
   From an empty system whose workers build their keys as they do, no object is
   authorised for deletion too early or while any publishing run uses it.
   */
  lemma AuthorizedByFormat(ss: seq<Step>, time: Time, retention: int, i: nat, name: Id -> string)
    requires LegalRun(NOTHING, ss, time, retention) && NamesRuns(name) && RunFollowsFormat(ss, name)
    requires i < |ss| && ss[i].AuthorizeStep? &&
        Authorizes(After(NOTHING, ss[..i], retention), ss[i].attempt, ss[i].token)
    ensures var at := After(NOTHING, ss[..i], retention);
            var id := ss[i].attempt.candidate;
            && id in at.candidates
            && at.candidates[id].discoveredAt + Retention(retention) <= ss[i].now
            && !UsedBySomeRun(at.tables, id.key)
  {
    hide After, LegalRun, Authorizes, UsedBySomeRun, NamesRuns, KeysFollowFormat, OwnedTables, Inv, Owned;
    var owner := key => OwnerOf(key, name);
    NothingIsOk(time, retention, owner);
    forall j | 0 <= j < |ss| && ss[j].OtherStep?
      ensures OwnedTables(ss[j].tables, owner)
    {
      FormatOwns(ss[j].tables, name);
    }
    AuthorizedIsSafe(NOTHING, ss, time, retention, i, owner);
  }
}
