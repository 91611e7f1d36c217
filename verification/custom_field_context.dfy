/** The custom-field context resource. Its identifier is the composite
    `field_id:context_id`, written on create and parsed back on read,
    update and delete. */
module CustomFieldContext {
  import opened Wrappers
  import opened GoStrings
  import opened Requests
  import opened ContextDataSource

  const ID_FORMAT_ERROR_MESSAGE := "ID is incorrectly formatted. Expected format is `field_id:context_id`"
  const CREATE_CONTEXT_FAILED := "Creating Jira Field Context failed"
  /** Returned by both update and delete: the delete path reuses the update text. */
  const UPDATE_CONTEXT_FAILED := "Updating Jira Field Context failed"

  /** The resource's state: the identifier, the six fields shared with the
      data source, and the issue-type and project scopes, which can only be
      set on create (changing them replaces the resource). */
  datatype ContextData = ContextData(
    id: string,
    fields: ContextFields,
    issueTypeIds: seq<string>,
    projectIds: seq<string>)

  /** The body of a create or update request. */
  datatype ContextRequest = ContextRequest(
    name: string,
    description: string,
    issueTypeIds: seq<string>,
    projectIds: seq<string>)

  /** The remote requests the resource issues. */
  datatype ContextCall =
    | ListContexts(fieldId: string)
    | CreateContext(fieldId: string, body: ContextRequest)
    | UpdateContext(fieldId: string, contextId: string, body: ContextRequest)
    | DeleteContext(fieldId: string, contextId: string)

  /** A field id or context id that can stand in a composite identifier. */
  predicate IsIdPart(s: string)
  {
    s != "" && ':' !in s
  }

  /** Read's check of the identifier: it must split on ':' into exactly two
      pieces, neither of them empty; anything else is the fixed format error. */
  function ParseId(id: string): (r: Result<(string, string), Error>)
    ensures Count(id, ':') != 1 ==> r == Failure(Message(ID_FORMAT_ERROR_MESSAGE))
    ensures r.Failure? ==> r.error == Message(ID_FORMAT_ERROR_MESSAGE)
    ensures r.Success? ==> IsIdPart(r.value.0) && IsIdPart(r.value.1)
  {
    var ids := Split(id, ':');
    if |ids| != 2 then Failure(Message(ID_FORMAT_ERROR_MESSAGE))
    else if ids[0] == "" || ids[1] == "" then Failure(Message(ID_FORMAT_ERROR_MESSAGE))
    else Success((ids[0], ids[1]))
  }

  /** Parsing an identifier written by create gives back its two parts. */
  lemma ParseFormat(fieldId: string, contextId: string)
    requires IsIdPart(fieldId) && IsIdPart(contextId)
    ensures ParseId(FormatId(fieldId, contextId)) == Success((fieldId, contextId))
  {
    SplitJoin([fieldId, contextId], ':');
    assert Join([fieldId, contextId], ':') == FormatId(fieldId, contextId);
  }

  /** Every identifier that parses is the formatting of what it parses to. */
  lemma FormatParse(id: string)
    requires ParseId(id).Success?
    ensures id == FormatId(ParseId(id).value.0, ParseId(id).value.1)
  {
    var ids := Split(id, ':');
    JoinSplit(id, ':');
    assert Join(ids, ':') == ids[0] + [':'] + ids[1];
  }

  /** Read accepts exactly the identifiers create can write from two
      well-formed parts. */
  lemma ParseAcceptsExactly(id: string)
    ensures ParseId(id).Success? <==>
              exists f, c :: IsIdPart(f) && IsIdPart(c) && id == FormatId(f, c)
  {
    if ParseId(id).Success? {
      FormatParse(id);
    }
    if exists f, c :: IsIdPart(f) && IsIdPart(c) && id == FormatId(f, c) {
      var f, c :| IsIdPart(f) && IsIdPart(c) && id == FormatId(f, c);
      ParseFormat(f, c);
    }
  }

  /** The loop in `resourceCustomFieldContextRead`: every listed context whose id is `contextId`
      overwrites the fields, in listing order. */
  function ApplyMatching(fields: ContextFields, contexts: seq<FieldContext>, contextId: string, fieldId: string): ContextFields
    decreases |contexts|
  {
    if |contexts| == 0 then fields
    else ApplyMatching(
           if contexts[0].id == contextId then SetContextFields(contexts[0], fieldId) else fields,
           contexts[1..], contextId, fieldId)
  }

  /** The read loop agrees with the scan of the data source: without a match
      the fields are untouched, otherwise they describe the last match. */
  lemma {:induction false} ApplyMatchingIsLastMatch(fields: ContextFields, contexts: seq<FieldContext>, contextId: string, fieldId: string)
    ensures (forall i :: 0 <= i < |contexts| ==> contexts[i].id != contextId) ==>
              ApplyMatching(fields, contexts, contextId, fieldId) == fields
    ensures forall i :: IsLastMatch(contexts, contextId, i) ==>
              ApplyMatching(fields, contexts, contextId, fieldId) == SetContextFields(contexts[i], fieldId)
    decreases |contexts|
  {
    if |contexts| > 0 {
      var rest := contexts[1..];
      var next := if contexts[0].id == contextId then SetContextFields(contexts[0], fieldId) else fields;
      ApplyMatchingIsLastMatch(next, rest, contextId, fieldId);
      forall i | IsLastMatch(contexts, contextId, i)
        ensures ApplyMatching(fields, contexts, contextId, fieldId) == SetContextFields(contexts[i], fieldId)
      {
        forall j | i - 1 < j < |rest| ensures rest[j].id != contextId {
          assert rest[j] == contexts[j + 1];
        }
        if i > 0 {
          assert rest[i - 1] == contexts[i];
          assert IsLastMatch(rest, contextId, i - 1);
        }
      }
      if forall i :: 0 <= i < |contexts| ==> contexts[i].id != contextId {
        forall j | 0 <= j < |rest| ensures rest[j].id != contextId {
          assert rest[j] == contexts[j + 1];
        }
      }
    }
  }

  /** `resourceCustomFieldContextRead`: check the identifier, list the
      field's contexts and copy the fields of the last one whose id is the
      identifier's context part. A listing without such a context is not an
      error and leaves the state as it was. */
  function ReadContext(d: ContextData, listed: Option<seq<FieldContext>>): (r: Run<ContextData, ContextCall>)
    ensures ParseId(d.id).Failure? ==>
              r == Run(d, [], Some(Message(ID_FORMAT_ERROR_MESSAGE)))
    ensures ParseId(d.id).Success? ==>
              r.calls == [ListContexts(ParseId(d.id).value.0)]
    ensures ParseId(d.id).Success? && listed.None? ==>
              r.err == Some(Wrapped(FETCH_CONTEXTS_FAILED)) && r.state == d
    ensures r.state.id == d.id
    ensures r.state.issueTypeIds == d.issueTypeIds && r.state.projectIds == d.projectIds
  {
    match ParseId(d.id)
    case Failure(e) => Run(d, [], Some(e))
    case Success((fieldId, contextId)) =>
      var calls := [ListContexts(fieldId)];
      match listed
      case None => Run(d, calls, Some(Wrapped(FETCH_CONTEXTS_FAILED)))
      case Some(contexts) =>
        Run(d.(fields := ApplyMatching(d.fields, contexts, contextId, fieldId)), calls, None)
  }

  /** A successful read with no listed context matching leaves the state unchanged;
      with matches, the fields describe the last match and name the identifier's field. */
  lemma ReadContextOutcome(d: ContextData, contexts: seq<FieldContext>)
    requires ParseId(d.id).Success?
    ensures ReadContext(d, Some(contexts)).err.None?
    ensures var (fieldId, contextId) := ParseId(d.id).value;
            && ((forall i :: 0 <= i < |contexts| ==> contexts[i].id != contextId) ==>
                  ReadContext(d, Some(contexts)).state == d)
            && (forall i :: IsLastMatch(contexts, contextId, i) ==>
                  ReadContext(d, Some(contexts)).state == d.(fields := SetContextFields(contexts[i], fieldId)))
  {
    var (fieldId, contextId) := ParseId(d.id).value;
    ApplyMatchingIsLastMatch(d.fields, contexts, contextId, fieldId);
  }

  /** `resourceCustomFieldContextCreate`: post the configured name,
      description and scopes (the reply `created` carries the new context's
      id, `None` when the request fails), record the context id and the
      identifier `field_id:context_id`, then read. */
  function CreateContextResource(d: ContextData, created: Option<string>, listed: Option<seq<FieldContext>>): (r: Run<ContextData, ContextCall>)
    ensures |r.calls| >= 1
    ensures r.calls[0] == CreateContext(d.fields.fieldId,
              ContextRequest(d.fields.name, d.fields.description, d.issueTypeIds, d.projectIds))
    ensures created.None? ==> r.calls == r.calls[..1] && r.state == d && r.err == Some(Wrapped(CREATE_CONTEXT_FAILED))
    ensures created.Some? ==> r.state.id == FormatId(d.fields.fieldId, created.value)
    ensures created.Some? ==>
              var read := ReadContext(Recorded(d, created.value), listed);
              r.state == read.state && r.calls[1..] == read.calls && r.err == read.err
    ensures created.Some? && IsIdPart(d.fields.fieldId) && IsIdPart(created.value) ==>
              r.calls == [r.calls[0], ListContexts(d.fields.fieldId)] && (listed.Some? ==> r.err.None?)
  {
    var fieldId := d.fields.fieldId;
    var body := ContextRequest(d.fields.name, d.fields.description, d.issueTypeIds, d.projectIds);
    var post := CreateContext(fieldId, body);
    match created
    case None => Run(d, [post], Some(Wrapped(CREATE_CONTEXT_FAILED)))
    case Some(contextId) =>
      var read := ReadContext(Recorded(d, contextId), listed);
      assert IsIdPart(fieldId) && IsIdPart(contextId) ==>
               ParseId(FormatId(fieldId, contextId)) == Success((fieldId, contextId)) by {
        if IsIdPart(fieldId) && IsIdPart(contextId) {
          ParseFormat(fieldId, contextId);
        }
      }
      Run(read.state, [post] + read.calls, read.err)
  }

  /** The record create reads back: the returned context id is stored, and
      the identifier becomes `field_id:context_id`. */
  function Recorded(d: ContextData, contextId: string): ContextData
  {
    d.(id := FormatId(d.fields.fieldId, contextId), fields := d.fields.(contextId := contextId))
  }

  /** A create whose field id and returned context id are well formed keeps
      the returned context id and the field id through the read-back, and
      its fields are either the posted ones or those of the last listed
      context carrying the new id. */
  lemma CreateRecordsContext(d: ContextData, contextId: string, contexts: seq<FieldContext>)
    requires IsIdPart(d.fields.fieldId) && IsIdPart(contextId)
    ensures var r := CreateContextResource(d, Some(contextId), Some(contexts));
            && r.err.None?
            && r.state.fields.contextId == contextId
            && r.state.fields.fieldId == d.fields.fieldId
            && ((forall i :: 0 <= i < |contexts| ==> contexts[i].id != contextId) ==>
                  r.state == Recorded(d, contextId))
            && (forall i :: IsLastMatch(contexts, contextId, i) ==>
                  r.state == Recorded(d, contextId).(fields := SetContextFields(contexts[i], d.fields.fieldId)))
  {
    var fieldId := d.fields.fieldId;
    var d' := Recorded(d, contextId);
    ParseFormat(fieldId, contextId);
    ReadContextOutcome(d', contexts);
    if exists i :: 0 <= i < |contexts| && contexts[i].id == contextId {
      var i := LastMatchExists(contexts, contextId);
      assert ContextOf(SetContextFields(contexts[i], fieldId)).id == contextId;
    }
  }

  /** A create with well-formed ids whose read-back listing fails returns
      the fetch error, after recording the returned context id and the
      identifier. */
  lemma CreateReadBackFailed(d: ContextData, contextId: string)
    requires IsIdPart(d.fields.fieldId) && IsIdPart(contextId)
    ensures var r := CreateContextResource(d, Some(contextId), None);
            && r.err == Some(Wrapped(FETCH_CONTEXTS_FAILED))
            && r.state == Recorded(d, contextId)
            && |r.calls| == 2
  {
    ParseFormat(d.fields.fieldId, contextId);
  }

  /** Update and delete take the first two ':'-pieces of the identifier
      without checking their number; fewer than two pieces would crash. */
  predicate HasTwoParts(id: string)
  {
    |Split(id, ':')| >= 2
  }

  /** `resourceCustomFieldContextUpdate`: put the name and description only
      (the scopes are never sent, since changing them replaces the resource)
      to the context named by the identifier's first two ':'-pieces, then
      read. */
  function UpdateContextResource(d: ContextData, accepted: bool, listed: Option<seq<FieldContext>>): (r: Run<ContextData, ContextCall>)
    requires HasTwoParts(d.id)
    ensures |r.calls| >= 1
    ensures r.calls[0] == UpdateContext(Split(d.id, ':')[0], Split(d.id, ':')[1],
              ContextRequest(d.fields.name, d.fields.description, [], []))
    ensures forall i :: 0 <= i < |r.calls| ==> !r.calls[i].CreateContext? && !r.calls[i].DeleteContext?
    ensures !accepted ==> r == Run(d, r.calls[..1], Some(Wrapped(UPDATE_CONTEXT_FAILED)))
    ensures accepted ==> r.err != Some(Wrapped(UPDATE_CONTEXT_FAILED))
    ensures accepted ==>
              var read := ReadContext(d, listed);
              r.state == read.state && r.calls[1..] == read.calls && r.err == read.err
  {
    var ids := Split(d.id, ':');
    var put := UpdateContext(ids[0], ids[1], ContextRequest(d.fields.name, d.fields.description, [], []));
    if !accepted then Run(d, [put], Some(Wrapped(UPDATE_CONTEXT_FAILED)))
    else
      var read := ReadContext(d, listed);
      Run(read.state, [put] + read.calls, read.err)
  }

  /** Update addresses the field and context that open the identifier: for
      ':'-free `fieldId` and `contextId`, any identifier
      `fieldId:contextId` followed by nothing or by more ':'-pieces. */
  lemma UpdateTarget(d: ContextData, accepted: bool, listed: Option<seq<FieldContext>>, fieldId: string, contextId: string, tail: string)
    requires ':' !in fieldId && ':' !in contextId
    requires tail == "" || tail[0] == ':'
    requires d.id == FormatId(fieldId, contextId) + tail
    ensures HasTwoParts(d.id)
    ensures UpdateContextResource(d, accepted, listed).calls[0]
              == UpdateContext(fieldId, contextId, ContextRequest(d.fields.name, d.fields.description, [], []))
  {
    SplitFirstTwo(fieldId, contextId, tail, ':');
  }

  /** `resourceCustomFieldContextDelete`: delete the context named by the
      first two ':'-pieces of the identifier. */
  function DeleteContextResource(d: ContextData, accepted: bool): (r: Run<ContextData, ContextCall>)
    requires HasTwoParts(d.id)
    ensures r.state == d
    ensures r.calls == [DeleteContext(Split(d.id, ':')[0], Split(d.id, ':')[1])]
    ensures r.err.None? <==> accepted
    ensures r.err.Some? ==> r.err == Some(Wrapped(UPDATE_CONTEXT_FAILED))
  {
    var ids := Split(d.id, ':');
    var del := DeleteContext(ids[0], ids[1]);
    if accepted then Run(d, [del], None)
    else Run(d, [del], Some(Wrapped(UPDATE_CONTEXT_FAILED)))
  }

  /** Delete addresses the field and context that open the identifier, in
      the same sense as for update. */
  lemma DeleteTarget(d: ContextData, accepted: bool, fieldId: string, contextId: string, tail: string)
    requires ':' !in fieldId && ':' !in contextId
    requires tail == "" || tail[0] == ':'
    requires d.id == FormatId(fieldId, contextId) + tail
    ensures HasTwoParts(d.id)
    ensures DeleteContextResource(d, accepted).calls == [DeleteContext(fieldId, contextId)]
  {
    SplitFirstTwo(fieldId, contextId, tail, ':');
  }

  /** Update and delete read the identifier's first two pieces even when
      there are more, so they address a context read would reject. */
  lemma ExtraPiecesIgnored(fieldId: string, contextId: string, extra: string)
    requires IsIdPart(fieldId) && IsIdPart(contextId) && ':' !in extra
    ensures var id := FormatId(fieldId, contextId) + ":" + extra;
            && ParseId(id).Failure?
            && HasTwoParts(id)
            && DeleteContextResource(ContextData(id, ContextFields("", "", "", "", false, false), [], []), true).calls
               == [DeleteContext(fieldId, contextId)]
  {
    var id := FormatId(fieldId, contextId) + ":" + extra;
    SplitJoin([fieldId, contextId, extra], ':');
    assert Join([contextId, extra], ':') == contextId + [':'] + extra;
    assert Join([fieldId, contextId, extra], ':') == id;
  }
}
