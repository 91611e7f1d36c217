/** The custom-field context data source: it lists the contexts of a field
    and picks one, either by the configured context id or, when none is
    configured, the field's only context. It also holds the context record
    and the field copy shared with the context resource. */
module ContextDataSource {
  import opened Wrappers
  import opened Requests

  const UNABLE_TO_DETERMINE_CONTEXT := "Unable to determine context from field ID. Are there multiple contexts defined?"
  const FETCH_CONTEXTS_FAILED := "Fetching Jira Field Contexts failed"

  /** A field context as the remote system lists it. */
  datatype FieldContext = FieldContext(
    id: string,
    name: string,
    description: string,
    isAnyIssueType: bool,
    isGlobalContext: bool)

  /** The composite identifier `field_id:context_id`, written by the data
      source's read and by the context resource's create. */
  function FormatId(fieldId: string, contextId: string): string
  {
    fieldId + ":" + contextId
  }

  /** The zero value of `FieldContext`: every string empty, both flags false.
      The selection treats it as "no context found". */
  const ZeroContext := FieldContext("", "", "", false, false)

  /** The six state fields that the context data source and the context
      resource both fill from a `FieldContext`. */
  datatype ContextFields = ContextFields(
    name: string,
    fieldId: string,
    contextId: string,
    description: string,
    isAnyIssueType: bool,
    isGlobalContext: bool)

  /** The data source's state: its identifier and the fields above. The
      configured `fieldId` and optional `contextId` are inputs; the rest is
      computed. */
  datatype SourceData = SourceData(id: string, fields: ContextFields)

  /** The remote request the data source issues: list the field's contexts. */
  datatype SourceCall = ListFieldContexts(fieldId: string)

  /** `setContextFields`: overwrite all six fields from `context`, with the
      field id taken from the caller. Nothing of the previous values survives,
      and the context can be read back from the result. */
  function SetContextFields(context: FieldContext, fieldId: string): (r: ContextFields)
    ensures r.fieldId == fieldId
    ensures ContextOf(r) == context
  {
    ContextFields(context.name, fieldId, context.id, context.description,
                  context.isAnyIssueType, context.isGlobalContext)
  }

  /** The context that a set of fields describes (the field id aside). */
  function ContextOf(f: ContextFields): FieldContext
  {
    FieldContext(f.contextId, f.name, f.description, f.isAnyIssueType, f.isGlobalContext)
  }

  /** Two field sets that describe the same context for the same field are equal:
      together with the ensures of `SetContextFields`, this makes the copy exact. */
  lemma {:induction false} ContextOfInjective(f: ContextFields, g: ContextFields)
    requires f.fieldId == g.fieldId
    requires ContextOf(f) == ContextOf(g)
    ensures f == g
  {
    assert f.contextId == ContextOf(f).id;
    assert g.contextId == ContextOf(g).id;
  }

  /** Index of a context carrying `id` with no later context carrying it. */
  ghost predicate IsLastMatch(contexts: seq<FieldContext>, id: string, i: int)
  {
    && 0 <= i < |contexts|
    && contexts[i].id == id
    && forall j :: i < j < |contexts| ==> contexts[j].id != id
  }

  /** The loop in `dataSourceCustomFieldContextRead` over the listed contexts: every context whose id
      equals `id` replaces `found`, so the last one wins; with no match,
      `found` is returned as it came in. */
  function ScanMatching(contexts: seq<FieldContext>, id: string, found: FieldContext): (r: FieldContext)
    ensures r == found || r in contexts
    decreases |contexts|
  {
    if |contexts| == 0 then found
    else ScanMatching(contexts[1..], id, if contexts[0].id == id then contexts[0] else found)
  }

  /** The scan keeps `found` when nothing matches. */
  lemma {:induction false} ScanNoMatch(contexts: seq<FieldContext>, id: string, found: FieldContext)
    requires forall i :: 0 <= i < |contexts| ==> contexts[i].id != id
    ensures ScanMatching(contexts, id, found) == found
    decreases |contexts|
  {
    if |contexts| > 0 {
      assert contexts[0].id != id;
      forall i | 0 <= i < |contexts[1..]| ensures contexts[1..][i].id != id {
        assert contexts[1..][i] == contexts[i + 1];
      }
      ScanNoMatch(contexts[1..], id, found);
    }
  }

  /** The scan ends on the last matching context, whatever it started with. */
  lemma {:induction false} ScanLastMatch(contexts: seq<FieldContext>, id: string, found: FieldContext, i: int)
    requires IsLastMatch(contexts, id, i)
    ensures ScanMatching(contexts, id, found) == contexts[i]
    decreases |contexts|
  {
    var rest := contexts[1..];
    var next := if contexts[0].id == id then contexts[0] else found;
    assert ScanMatching(contexts, id, found) == ScanMatching(rest, id, next);
    if i == 0 {
      forall j | 0 <= j < |rest| ensures rest[j].id != id {
        assert rest[j] == contexts[j + 1];
      }
      ScanNoMatch(rest, id, next);
    } else {
      assert rest[i - 1] == contexts[i];
      forall j | i - 1 < j < |rest| ensures rest[j].id != id {
        assert rest[j] == contexts[j + 1];
      }
      ScanLastMatch(rest, id, next, i - 1);
    }
  }

  /** The selection rule: by id when one is configured, otherwise the only
      listed context; a selection equal to the zero context is an error. */
  function SelectContext(contexts: seq<FieldContext>, contextId: string): (r: Result<FieldContext, Error>)
    ensures r.Failure? ==> r.error == Message(UNABLE_TO_DETERMINE_CONTEXT)
    ensures r.Success? ==> r.value != ZeroContext && r.value in contexts
  {
    var found :=
      if contextId != "" then ScanMatching(contexts, contextId, ZeroContext)
      else if |contexts| == 1 then contexts[0]
      else ZeroContext;
    if found == ZeroContext then Failure(Message(UNABLE_TO_DETERMINE_CONTEXT))
    else Success(found)
  }

  /** With a context id configured, the selection succeeds exactly when some
      listed context carries that id, and then it is the last such context. */
  lemma SelectById(contexts: seq<FieldContext>, contextId: string)
    requires contextId != ""
    ensures SelectContext(contexts, contextId).Success? <==>
              exists i :: 0 <= i < |contexts| && contexts[i].id == contextId
    ensures forall i :: IsLastMatch(contexts, contextId, i) ==>
              SelectContext(contexts, contextId) == Success(contexts[i])
  {
    if exists i :: 0 <= i < |contexts| && contexts[i].id == contextId {
      var i := LastMatchExists(contexts, contextId);
      ScanLastMatch(contexts, contextId, ZeroContext, i);
      assert contexts[i] != ZeroContext;
    } else {
      ScanNoMatch(contexts, contextId, ZeroContext);
    }
    forall i | IsLastMatch(contexts, contextId, i)
      ensures SelectContext(contexts, contextId) == Success(contexts[i])
    {
      ScanLastMatch(contexts, contextId, ZeroContext, i);
      assert contexts[i] != ZeroContext;
    }
  }

  /** Some matching index has a last one. */
  lemma {:induction false} LastMatchExists(contexts: seq<FieldContext>, id: string) returns (i: nat)
    requires exists k :: 0 <= k < |contexts| && contexts[k].id == id
    ensures IsLastMatch(contexts, id, i)
  {
    var k :| 0 <= k < |contexts| && contexts[k].id == id;
    i := k;
    while i + 1 < |contexts| && exists j :: i < j < |contexts| && contexts[j].id == id
      invariant 0 <= i < |contexts| && contexts[i].id == id
      decreases |contexts| - i
    {
      var j :| i < j < |contexts| && contexts[j].id == id;
      i := j;
    }
  }

  /** With no context id configured, the selection succeeds exactly when the
      field has one context and it is not the zero context, and then it is
      that context. */
  lemma SelectSingle(contexts: seq<FieldContext>)
    ensures SelectContext(contexts, "").Success? <==> |contexts| == 1 && contexts[0] != ZeroContext
    ensures SelectContext(contexts, "").Success? ==> SelectContext(contexts, "") == Success(contexts[0])
  {
  }

  /** `dataSourceCustomFieldContextRead`: list the field's contexts (the
      listing is `listed`, `None` when the request fails), select one, and on
      success set the identifier to `field_id:context_id` and copy the
      context's fields. */
  function ReadDataSource(d: SourceData, listed: Option<seq<FieldContext>>): (r: Run<SourceData, SourceCall>)
    ensures r.calls == [ListFieldContexts(d.fields.fieldId)]
    ensures listed.None? ==> r.err == Some(Wrapped(FETCH_CONTEXTS_FAILED)) && r.state == d
    ensures r.err.Some? ==> r.state == d
    ensures listed.Some? && SelectContext(listed.value, d.fields.contextId).Failure? ==>
              r.err == Some(Message(UNABLE_TO_DETERMINE_CONTEXT))
    ensures listed.Some? && SelectContext(listed.value, d.fields.contextId).Success? ==> r.err.None?
    ensures r.err.None? ==>
              && listed.Some?
              && SelectContext(listed.value, d.fields.contextId).Success?
              && var c := SelectContext(listed.value, d.fields.contextId).value;
                 && r.state.id == FormatId(d.fields.fieldId, c.id)
                 && r.state.fields.fieldId == d.fields.fieldId
                 && ContextOf(r.state.fields) == c
  {
    var calls := [ListFieldContexts(d.fields.fieldId)];
    match listed
    case None => Run(d, calls, Some(Wrapped(FETCH_CONTEXTS_FAILED)))
    case Some(contexts) =>
      match SelectContext(contexts, d.fields.contextId)
      case Failure(e) => Run(d, calls, Some(e))
      case Success(c) =>
        var fieldId := d.fields.fieldId;
        Run(SourceData(FormatId(fieldId, c.id), SetContextFields(c, fieldId)), calls, None)
  }
}
