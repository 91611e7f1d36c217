/** The options-list resource of a custom-field context. Its configured
    state is the ordered list of option ids the context should keep. An
    update deletes every remote option whose id is not in that list, in
    the order the remote system lists them, and then asks the remote system
    to put the listed ids first, in the configured order. Options are
    matched by id only; nothing is created or renamed. */
module CustomFieldOptions {
  import opened Wrappers
  import opened Requests

  const FETCH_OPTIONS_FAILED := "Fetching Jira Field Context Options failed"
  const DELETE_OPTION_FAILED := "Deleting Jira Field Context Option failed"
  const REORDER_OPTIONS_FAILED := "Reordering Jira Field Context Options failed"
  /** The position every reorder request asks for. */
  const FIRST := "First"

  /** An option as the remote system lists it. */
  datatype FieldOption = FieldOption(id: string, value: string, disabled: bool, optionId: string)

  /** The resource's state: its identifier, the field and context it
      belongs to, and the ordered option ids. */
  datatype OptionsData = OptionsData(id: string, fieldId: string, contextId: string, optionsIds: seq<string>)

  /** The body of the reorder request. */
  datatype ReorderRequest = ReorderRequest(position: string, customFieldOptionIds: seq<string>)

  /** The remote requests the resource issues; all of them address the
      resource's own field and context. */
  datatype OptionsCall =
    | ListOptions
    | DeleteOption(optionId: string)
    | ReorderOptions(request: ReorderRequest)

  /** `optionsIdsContains`: a linear scan of the configured ids for the option's id. */
  function OptionsIdsContains(optionIds: seq<string>, option: FieldOption): (r: bool)
    ensures r <==> option.id in optionIds
  {
    if |optionIds| == 0 then false
    else option.id == optionIds[0] || OptionsIdsContains(optionIds[1..], option)
  }

  /** The ids of the listed options, in listing order. */
  function OptionIds(options: seq<FieldOption>): (ids: seq<string>)
    ensures |ids| == |options|
    ensures forall i :: 0 <= i < |options| ==> ids[i] == options[i].id
  {
    if |options| == 0 then [] else [options[0].id] + OptionIds(options[1..])
  }

  /** The delete loop: the ids of the listed options that the desired list
      does not contain, in listing order. */
  function Deletions(desired: seq<string>, current: seq<FieldOption>): seq<string>
  {
    if |current| == 0 then []
    else
      var rest := Deletions(desired, current[1..]);
      if OptionsIdsContains(desired, current[0]) then rest
      else [current[0].id] + rest
  }

  /** The deleted ids are exactly the listed ids that are not desired: no
      desired option is ever deleted, and no undesired one is missed. */
  lemma {:induction false} DeletionsExactly(desired: seq<string>, current: seq<FieldOption>)
    ensures forall id :: id in Deletions(desired, current) <==> id in OptionIds(current) && id !in desired
    decreases |current|
  {
    if |current| > 0 {
      DeletionsExactly(desired, current[1..]);
      assert OptionIds(current) == [current[0].id] + OptionIds(current[1..]);
    }
  }

  /** The listed options a successful delete loop leaves in place. */
  function Kept(desired: seq<string>, current: seq<FieldOption>): seq<FieldOption>
  {
    if |current| == 0 then []
    else
      var rest := Kept(desired, current[1..]);
      if OptionsIdsContains(desired, current[0]) then [current[0]] + rest
      else rest
  }

  /** The deletions of a listing split at any point are the deletions of
      the two halves, one after the other: deletes follow listing order. */
  lemma {:induction false} DeletionsAppend(desired: seq<string>, a: seq<FieldOption>, b: seq<FieldOption>)
    ensures Deletions(desired, a + b) == Deletions(desired, a) + Deletions(desired, b)
    decreases |a|
  {
    if |a| == 0 {
      assert a + b == b;
    } else {
      assert (a + b)[0] == a[0];
      assert (a + b)[1..] == a[1..] + b;
      DeletionsAppend(desired, a[1..], b);
    }
  }

  /** A single listed option is deleted exactly when its id is not desired. */
  lemma DeletionsSingle(desired: seq<string>, o: FieldOption)
    ensures Deletions(desired, [o]) == if o.id in desired then [] else [o.id]
  {
  }

  /** Every listed option is either deleted or kept, and nothing else:
      counted with multiplicity, the listed ids are the deleted ids together
      with the kept ones. */
  lemma {:induction false} DeletionsPartition(desired: seq<string>, current: seq<FieldOption>)
    ensures multiset(OptionIds(current)) == multiset(Deletions(desired, current)) + multiset(OptionIds(Kept(desired, current)))
    decreases |current|
  {
    if |current| > 0 {
      var head := current[0];
      var rest := current[1..];
      DeletionsPartition(desired, rest);
      var deleted: seq<string> := if head.id in desired then [] else [head.id];
      var kept: seq<string> := if head.id in desired then [head.id] else [];
      UnfoldListing(desired, current);
      var del, keep := Deletions(desired, rest), OptionIds(Kept(desired, rest));
      calc {
        multiset(Deletions(desired, current)) + multiset(OptionIds(Kept(desired, current)));
        multiset(deleted + del) + multiset(kept + keep);
        multiset(deleted) + multiset(del) + (multiset(kept) + multiset(keep));
        { assert multiset(deleted) + multiset(kept) == multiset{head.id}; }
        multiset{head.id} + (multiset(del) + multiset(keep));
        multiset([head.id] + OptionIds(rest));
      }
    }
  }

  /** One step of the listing: the first option's id is deleted or kept
      according to whether it is desired, and the rest is handled alike. */
  lemma UnfoldListing(desired: seq<string>, current: seq<FieldOption>)
    requires |current| > 0
    ensures OptionIds(current) == [current[0].id] + OptionIds(current[1..])
    ensures Deletions(desired, current) ==
              (if current[0].id in desired then [] else [current[0].id]) + Deletions(desired, current[1..])
    ensures OptionIds(Kept(desired, current)) ==
              (if current[0].id in desired then [current[0].id] else []) + OptionIds(Kept(desired, current[1..]))
  {
    if current[0].id in desired {
      assert Kept(desired, current) == [current[0]] + Kept(desired, current[1..]);
    }
  }

  /** Reconciling against what a successful delete loop left deletes nothing more. */
  lemma ReconcileConverges(desired: seq<string>, current: seq<FieldOption>)
    ensures Deletions(desired, Kept(desired, current)) == []
  {
  }

  /** The mutating requests of an update if the remote system accepts them all. */
  function Plan(desired: seq<string>, current: seq<FieldOption>): seq<OptionsCall>
  {
    DeleteCalls(Deletions(desired, current)) + [ReorderOptions(ReorderRequest(FIRST, desired))]
  }

  /** Every planned delete names an undesired id, and every planned reorder
      carries the desired ids verbatim. */
  lemma PlanRequests(desired: seq<string>, current: seq<FieldOption>)
    ensures forall i :: 0 <= i < |Plan(desired, current)| && Plan(desired, current)[i].DeleteOption? ==>
              Plan(desired, current)[i].optionId !in desired
    ensures forall i :: 0 <= i < |Plan(desired, current)| && Plan(desired, current)[i].ReorderOptions? ==>
              Plan(desired, current)[i].request == ReorderRequest(FIRST, desired)
  {
    var plan := Plan(desired, current);
    var dels := Deletions(desired, current);
    DeletionsExactly(desired, current);
    forall i | 0 <= i < |plan|
      ensures plan[i].DeleteOption? ==> plan[i].optionId !in desired
      ensures plan[i].ReorderOptions? ==> plan[i].request == ReorderRequest(FIRST, desired)
    {
      if i < |dels| {
        assert plan[i] == plan[..|dels|][i] == DeleteOption(dels[i]);
        assert dels[i] in dels;
      }
    }
  }

  /** One delete request per id, in order. */
  function DeleteCalls(ids: seq<string>): (calls: seq<OptionsCall>)
    ensures |calls| == |ids|
    ensures forall i :: 0 <= i < |ids| ==> calls[i] == DeleteOption(ids[i])
  {
    if |ids| == 0 then [] else [DeleteOption(ids[0])] + DeleteCalls(ids[1..])
  }

  /** `resourceCustomFieldOptionsRead`: list the options and store their
      ids in listing order. */
  function ReadOptions(d: OptionsData, listed: Option<seq<FieldOption>>): (r: Run<OptionsData, OptionsCall>)
    ensures r.calls == [ListOptions]
    ensures listed.None? ==> r.state == d && r.err == Some(Wrapped(FETCH_OPTIONS_FAILED))
    ensures listed.Some? ==> r.err.None? && r.state == d.(optionsIds := r.state.optionsIds)
    ensures listed.Some? ==>
              && |r.state.optionsIds| == |listed.value|
              && forall i :: 0 <= i < |listed.value| ==> r.state.optionsIds[i] == listed.value[i].id
  {
    match listed
    case None => Run(d, [ListOptions], Some(Wrapped(FETCH_OPTIONS_FAILED)))
    case Some(options) => Run(d.(optionsIds := OptionIds(options)), [ListOptions], None)
  }

  /** `resourceCustomFieldOptionsUpdate`: list the options (`listed`, `None`
      when that request fails), issue the planned deletes and the reorder
      (`accepts(k)` tells whether the k-th of them is accepted; the first
      refusal ends the update), then read the options again (`relisted`). */
  function UpdateOptions(d: OptionsData, listed: Option<seq<FieldOption>>, accepts: nat -> bool, relisted: Option<seq<FieldOption>>): (r: Run<OptionsData, OptionsCall>)
    ensures |r.calls| >= 1 && r.calls[0] == ListOptions
    ensures listed.None? ==> r == Run(d, [ListOptions], Some(Wrapped(FETCH_OPTIONS_FAILED)))
    ensures forall i :: 0 <= i < |r.calls| && r.calls[i].DeleteOption? ==> r.calls[i].optionId !in d.optionsIds
    ensures forall i :: 0 <= i < |r.calls| && r.calls[i].ReorderOptions? ==>
              r.calls[i].request == ReorderRequest(FIRST, d.optionsIds)
    ensures r.state.id == d.id && r.state.fieldId == d.fieldId && r.state.contextId == d.contextId
  {
    match listed
    case None => Run(d, [ListOptions], Some(Wrapped(FETCH_OPTIONS_FAILED)))
    case Some(current) =>
      var plan := Plan(d.optionsIds, current);
      PlanRequests(d.optionsIds, current);
      match FirstRefusal(plan, accepts)
      case Some(k) =>
        Run(d, [ListOptions] + plan[..k + 1],
            Some(Wrapped(if plan[k].DeleteOption? then DELETE_OPTION_FAILED else REORDER_OPTIONS_FAILED)))
      case None =>
        var read := ReadOptions(d, relisted);
        Run(read.state, [ListOptions] + plan + read.calls, read.err)
  }

  /** The first refused delete ends the update with the delete error: the
      deletes before it and the refused one are the last requests issued,
      and no reorder follows. */
  lemma UpdateStopsAtRefusedDelete(d: OptionsData, current: seq<FieldOption>, accepts: nat -> bool, relisted: Option<seq<FieldOption>>, k: nat)
    requires k < |Deletions(d.optionsIds, current)|
    requires forall j :: 0 <= j < k ==> accepts(j)
    requires !accepts(k)
    ensures var r := UpdateOptions(d, Some(current), accepts, relisted);
            && r.state == d
            && r.err == Some(Wrapped(DELETE_OPTION_FAILED))
            && r.calls == [ListOptions] + DeleteCalls(Deletions(d.optionsIds, current)[..k + 1])
            && forall i :: 0 <= i < |r.calls| ==> !r.calls[i].ReorderOptions?
  {
    var plan := Plan(d.optionsIds, current);
    var prefix := DeleteCalls(Deletions(d.optionsIds, current)[..k + 1]);
    RefusedDeleteInPlan(d.optionsIds, current, accepts, k);
    var r := UpdateOptions(d, Some(current), accepts, relisted);
    assert r.calls == [ListOptions] + prefix;
    forall i | 0 <= i < |r.calls| ensures !r.calls[i].ReorderOptions? {
      if i > 0 {
        assert r.calls[i] == prefix[i - 1];
      }
    }
  }

  /** Where a refused delete sits in the plan: it is the first refusal, and
      the plan up to it consists of the deletes up to it. */
  lemma RefusedDeleteInPlan(desired: seq<string>, current: seq<FieldOption>, accepts: nat -> bool, k: nat)
    requires k < |Deletions(desired, current)|
    requires forall j :: 0 <= j < k ==> accepts(j)
    requires !accepts(k)
    ensures FirstRefusal(Plan(desired, current), accepts) == Some(k)
    ensures Plan(desired, current)[k].DeleteOption?
    ensures Plan(desired, current)[..k + 1] == DeleteCalls(Deletions(desired, current)[..k + 1])
  {
    var dels := Deletions(desired, current);
    var plan := Plan(desired, current);
    var prefix := DeleteCalls(dels[..k + 1]);
    DeleteCallsPrefix(dels, k + 1);
    assert plan[..k + 1] == plan[..|dels|][..k + 1];
    assert plan[k] == prefix[k];
    FirstRefusalAt(plan, accepts, k);
  }

  /** A prefix of the delete requests is the delete requests of a prefix. */
  lemma DeleteCallsPrefix(ids: seq<string>, n: nat)
    requires n <= |ids|
    ensures DeleteCalls(ids)[..n] == DeleteCalls(ids[..n])
  {
  }

  /** When every delete is accepted, exactly one reorder request is issued,
      after all of them: it asks for position "First" with the configured
      ids verbatim, including ids the remote system does not list. Only the
      final re-listing can follow it. */
  lemma UpdateReordersOnce(d: OptionsData, current: seq<FieldOption>, accepts: nat -> bool, relisted: Option<seq<FieldOption>>)
    requires forall j :: 0 <= j < |Deletions(d.optionsIds, current)| ==> accepts(j)
    ensures var r := UpdateOptions(d, Some(current), accepts, relisted);
            var reorder := ReorderOptions(ReorderRequest(FIRST, d.optionsIds));
            var issued := [ListOptions] + DeleteCalls(Deletions(d.optionsIds, current)) + [reorder];
            && |r.calls| >= |issued|
            && r.calls[..|issued|] == issued
            && forall i :: |issued| <= i < |r.calls| ==> r.calls[i] == ListOptions
  {
    var dels := Deletions(d.optionsIds, current);
    var plan := Plan(d.optionsIds, current);
    var n := |dels|;
    var reorder := ReorderOptions(ReorderRequest(FIRST, d.optionsIds));
    assert plan == DeleteCalls(dels) + [reorder] by {
      assert plan == plan[..n] + [plan[n]];
    }
    var r := UpdateOptions(d, Some(current), accepts, relisted);
    var tail := UpdateCallsAfterDeletes(d, current, accepts, relisted);
    var issued := [ListOptions] + plan;
    assert r.calls[..|issued|] == issued;
    forall i | |issued| <= i < |r.calls| ensures r.calls[i] == ListOptions {
      assert r.calls[i] == tail[i - |issued|];
    }
  }

  /** Once every delete is accepted, the whole plan is issued, followed by
      the re-listing exactly when the reorder is accepted. */
  lemma UpdateCallsAfterDeletes(d: OptionsData, current: seq<FieldOption>, accepts: nat -> bool, relisted: Option<seq<FieldOption>>)
    returns (tail: seq<OptionsCall>)
    requires forall j :: 0 <= j < |Deletions(d.optionsIds, current)| ==> accepts(j)
    ensures tail == if accepts(|Deletions(d.optionsIds, current)|) then [ListOptions] else []
    ensures UpdateOptions(d, Some(current), accepts, relisted).calls
              == [ListOptions] + Plan(d.optionsIds, current) + tail
  {
    var plan := Plan(d.optionsIds, current);
    var n := |Deletions(d.optionsIds, current)|;
    if accepts(n) {
      tail := [ListOptions];
      assert forall k :: 0 <= k < |plan| ==> accepts(k);
      assert FirstRefusal(plan, accepts) == None;
      assert ReadOptions(d, relisted).calls == tail;
    } else {
      tail := [];
      FirstRefusalAt(plan, accepts, n);
      assert plan[..n + 1] == plan;
    }
  }

  /** A refused reorder, after every delete was accepted, ends the update
      with the reorder error and leaves the state as it was. */
  lemma UpdateReorderRefused(d: OptionsData, current: seq<FieldOption>, accepts: nat -> bool, relisted: Option<seq<FieldOption>>)
    requires forall j :: 0 <= j < |Deletions(d.optionsIds, current)| ==> accepts(j)
    requires !accepts(|Deletions(d.optionsIds, current)|)
    ensures UpdateOptions(d, Some(current), accepts, relisted)
              == Run(d, [ListOptions] + Plan(d.optionsIds, current), Some(Wrapped(REORDER_OPTIONS_FAILED)))
  {
    var plan := Plan(d.optionsIds, current);
    var n := |Deletions(d.optionsIds, current)|;
    FirstRefusalAt(plan, accepts, n);
    assert plan[..n + 1] == plan;
  }

  /** When every request is accepted and the options are listed again, the
      update succeeds and stores the relisted ids. */
  lemma UpdateSucceeds(d: OptionsData, current: seq<FieldOption>, accepts: nat -> bool, after: seq<FieldOption>)
    requires forall j :: 0 <= j <= |Deletions(d.optionsIds, current)| ==> accepts(j)
    ensures var r := UpdateOptions(d, Some(current), accepts, Some(after));
            && r.err.None?
            && r.state == d.(optionsIds := OptionIds(after))
            && r.calls == [ListOptions] + Plan(d.optionsIds, current) + [ListOptions]
  {
    assert FirstRefusal(Plan(d.optionsIds, current), accepts) == None;
  }

  /** When every mutating request is accepted but the final listing fails,
      the update returns the fetch error and keeps the stored ids, after
      issuing list, deletes, reorder and the failed list. */
  lemma UpdateRelistFailed(d: OptionsData, current: seq<FieldOption>, accepts: nat -> bool)
    requires forall j :: 0 <= j <= |Deletions(d.optionsIds, current)| ==> accepts(j)
    ensures var r := UpdateOptions(d, Some(current), accepts, None);
            && r.err == Some(Wrapped(FETCH_OPTIONS_FAILED))
            && r.state == d
            && r.calls == [ListOptions] + Plan(d.optionsIds, current) + [ListOptions]
  {
    assert FirstRefusal(Plan(d.optionsIds, current), accepts) == None;
  }

  /** The options a successful delete loop leaves in place all carry desired ids. */
  lemma {:induction false} KeptDesired(desired: seq<string>, current: seq<FieldOption>)
    ensures forall i :: 0 <= i < |Kept(desired, current)| ==> Kept(desired, current)[i].id in desired
    decreases |current|
  {
    if |current| > 0 {
      KeptDesired(desired, current[1..]);
    }
  }

  /** When every request is accepted and the relisting shows only options
      the delete loop left, in any order and any multiplicity (the reorder
      may have moved them), the stored ids are the relisted ones and every
      one is desired. */
  lemma UpdateStoresSurvivors(d: OptionsData, current: seq<FieldOption>, accepts: nat -> bool, after: seq<FieldOption>)
    requires forall j :: 0 <= j <= |Deletions(d.optionsIds, current)| ==> accepts(j)
    requires forall i :: 0 <= i < |after| ==> after[i].id in OptionIds(Kept(d.optionsIds, current))
    ensures var r := UpdateOptions(d, Some(current), accepts, Some(after));
            && r.err.None?
            && r.state.optionsIds == OptionIds(after)
            && forall i :: 0 <= i < |r.state.optionsIds| ==> r.state.optionsIds[i] in d.optionsIds
  {
    UpdateSucceeds(d, current, accepts, after);
    var kept := Kept(d.optionsIds, current);
    KeptDesired(d.optionsIds, current);
    forall i | 0 <= i < |after|
      ensures OptionIds(after)[i] in d.optionsIds
    {
      var j :| 0 <= j < |OptionIds(kept)| && OptionIds(kept)[j] == after[i].id;
      assert kept[j].id in d.optionsIds;
    }
  }

  /** A listing that holds only desired ids leaves nothing to delete. */
  lemma NothingToDelete(desired: seq<string>, current: seq<FieldOption>)
    requires forall i :: 0 <= i < |current| ==> current[i].id in desired
    ensures Deletions(desired, current) == []
  {
    DeletionsExactly(desired, current);
  }

  /** An update whose listing holds only desired ids deletes nothing: the
      reorder is its only mutating request. */
  lemma UpdateIdempotent(d: OptionsData, current: seq<FieldOption>, accepts: nat -> bool, relisted: Option<seq<FieldOption>>)
    requires forall i :: 0 <= i < |current| ==> current[i].id in d.optionsIds
    ensures Plan(d.optionsIds, current) == [ReorderOptions(ReorderRequest(FIRST, d.optionsIds))]
    ensures forall i :: 0 <= i < |UpdateOptions(d, Some(current), accepts, relisted).calls| ==>
              !UpdateOptions(d, Some(current), accepts, relisted).calls[i].DeleteOption?
  {
    NothingToDelete(d.optionsIds, current);
    var plan := Plan(d.optionsIds, current);
    assert plan == [plan[0]];
    var r := UpdateOptions(d, Some(current), accepts, relisted);
    if accepts(0) {
      assert FirstRefusal(plan, accepts) == None;
      assert r.calls == [ListOptions] + plan + [ListOptions];
    } else {
      FirstRefusalAt(plan, accepts, 0);
      assert r.calls == [ListOptions] + plan;
    }
  }

  /** `resourceCustomFieldOptionsCreate`: the identifier becomes
      `field_id-context_id`, then the update runs. */
  function CreateOptions(d: OptionsData, listed: Option<seq<FieldOption>>, accepts: nat -> bool, relisted: Option<seq<FieldOption>>): (r: Run<OptionsData, OptionsCall>)
    ensures r.state.id == d.fieldId + "-" + d.contextId
    ensures r.calls == UpdateOptions(d.(id := r.state.id), listed, accepts, relisted).calls
    ensures r.err == UpdateOptions(d.(id := r.state.id), listed, accepts, relisted).err
    ensures r.state == UpdateOptions(d.(id := r.state.id), listed, accepts, relisted).state
  {
    UpdateOptions(d.(id := d.fieldId + "-" + d.contextId), listed, accepts, relisted)
  }

  /** `resourceCustomFieldOptionsDelete`: the remote options are left alone. */
  function DeleteOptions(d: OptionsData): (r: Run<OptionsData, OptionsCall>)
    ensures r.state == d && r.calls == [] && r.err.None?
  {
    Run(d, [], None)
  }
}
