# Custom-field contexts and options of a JIRA Terraform provider, in Dafny

This project models the three pieces of logic in the provider's custom-field
context and option-list resources. Everything else in these resources maps
fields onto a REST client.

- **Option-list reconciliation.** This is the options resource. It takes the
  configured ordered list of option ids and the options in the single
  listing response the remote system returns for the context. It deletes every listed option whose id is not
  configured, in listing order. It then sends one reorder request that puts
  the configured ids first, in configured order. The first refused request
  ends the update. Options are matched by id only: the update never
  compares option values, and it never creates or edits an option.
- **The composite context identifier `field_id:context_id`.** The context
  resource writes it on create. Read parses it with Go's `strings.Split`:
  there must be exactly two pieces and neither may be empty. Update and
  delete take the first two pieces without checking.
- **Context selection.** This is the context data source. With a configured
  context id, the last listed context carrying it wins. Without one, the
  field's only context is chosen. A selection equal to the zero context is
  the "Unable to determine context" error.

Remote calls are modelled as data:

- Every operation is a pure function that returns a `Requests.Run`. A run
  holds the state it leaves, the remote requests it issued in order, and the
  error it returned, if any.
- Responses to listing requests are inputs of type `Option<seq<...>>`.
  `None` means the request failed.
- Whether the k-th mutating request of an options update is accepted is the
  input function `accepts(k)`.
- Errors are `Message(text)` where the Go code builds an error from a fixed
  text. They are `Wrapped(context)` where it wraps a remote failure; the
  wrapped cause is left opaque.

Files:

- `wrappers.dfy`: Option and Result.
- `go_strings.dfy`: Go's `strings.Split` on a one-character separator, plus
  `Join`, with both round trips.
- `requests.dfy`: errors, runs and the first-refusal rule.
- `custom_field_options.dfy`: the options resource.
- `data_source_custom_field_context.dfy`: the data source, the
  `FieldContext` record and `setContextFields`.
- `custom_field_context.dfy`: the context resource.

## Model

| member | source | states |
|---|---|---|
| CustomFieldOptions.OptionsIdsContains | jira/resource_custom_field_options.go:135-143 | true exactly when some configured id equals the option's id |
| CustomFieldOptions.DeletionsExactly | jira/resource_custom_field_options.go:102-112 | the deleted ids are exactly the listed ids that are not configured, so no configured option is ever deleted |
| CustomFieldOptions.DeletionsAppend | jira/resource_custom_field_options.go:102-112 | the deletions of a split listing are the two halves' deletions in sequence, so deletes follow remote listing order |
| CustomFieldOptions.DeletionsPartition | jira/resource_custom_field_options.go:102-112 | counted with multiplicity, every listed id is either deleted or kept, never both and never neither |
| CustomFieldOptions.PlanRequests | jira/resource_custom_field_options.go:102-117 | every planned delete names an unconfigured id and every planned reorder carries position "First" and the configured ids |
| CustomFieldOptions.UpdateOptions | jira/resource_custom_field_options.go:84-127 | the update lists first and aborts with the fetch error if that fails; the ids it deletes are never configured; every reorder it sends is {First, configured ids}; the resource identity is untouched |
| CustomFieldOptions.UpdateStopsAtRefusedDelete | jira/resource_custom_field_options.go:107-110 | the first refused delete returns the delete error with the state unchanged; the issued requests end at that delete and include no reorder |
| CustomFieldOptions.UpdateReordersOnce | jira/resource_custom_field_options.go:114-124 | once every delete is accepted, exactly one reorder follows them; it asks for position "First" with the configured ids verbatim, including ids absent remotely; only the final listing can come after it |
| CustomFieldOptions.UpdateReorderRefused | jira/resource_custom_field_options.go:121-124 | a refused reorder returns the reorder error with the state unchanged |
| CustomFieldOptions.UpdateSucceeds | jira/resource_custom_field_options.go:114-126 | when every request is accepted, the update succeeds, issues list, deletes, reorder, list, and stores the relisted ids |
| CustomFieldOptions.UpdateRelistFailed | jira/resource_custom_field_options.go:69-72 | when every request is accepted but the final listing fails, the update returns the fetch error and keeps the stored ids, after list, deletes, reorder and the failed list |
| CustomFieldOptions.UpdateStoresSurvivors | jira/resource_custom_field_options.go:102-126 | if every request is accepted and the relisting shows only options the deletes left, in any order (the reorder may have moved them), the update succeeds, stores the relisted ids, and every stored id is configured |
| CustomFieldOptions.NothingToDelete | jira/resource_custom_field_options.go:102-112 | a listing holding only configured ids yields no delete |
| CustomFieldOptions.ReconcileConverges | jira/resource_custom_field_options.go:102-112 | reconciling again against what the deletes left deletes nothing |
| CustomFieldOptions.UpdateIdempotent | jira/resource_custom_field_options.go:102-117 | when every listed id is configured, the reorder is the only mutating request and no delete is issued |
| CustomFieldOptions.ReadOptions | jira/resource_custom_field_options.go:62-82 | a successful read stores the listed options' ids in listing order and changes nothing else; a failed listing returns the fetch error and leaves the state |
| CustomFieldOptions.CreateOptions | jira/resource_custom_field_options.go:54-60 | the identifier becomes field_id + "-" + context_id, and the requests, error and final state are those of the update run on the renamed record |
| CustomFieldOptions.DeleteOptions | jira/resource_custom_field_options.go:131-133 | delete issues no request, returns no error and leaves the state |
| Requests.FirstRefusal | jira/resource_custom_field_options.go:102-124 | the index of the first refused request, with every earlier one accepted; none exactly when all are accepted |
| GoStrings.Split | jira/resource_custom_field_context.go:114 | the pieces contain no separator, and there is one more piece than there are separators in the input |
| CustomFieldContext.ParseId | jira/resource_custom_field_context.go:114-122 | an identifier without exactly one ':' is rejected; every rejection carries the fixed format message; an accepted identifier yields two non-empty, ':'-free parts |
| CustomFieldContext.ParseFormat | jira/resource_custom_field_context.go:106-122 | parsing the identifier create writes from two non-empty, ':'-free parts gives back those parts |
| CustomFieldContext.FormatParse | jira/resource_custom_field_context.go:106-122 | every identifier read accepts is the formatting of the parts it yields |
| CustomFieldContext.ParseAcceptsExactly | jira/resource_custom_field_context.go:106-122 | read accepts an identifier exactly when it is field_id:context_id with both parts non-empty and ':'-free |
| CustomFieldContext.ApplyMatchingIsLastMatch | jira/resource_custom_field_context.go:130-135 | the read loop leaves the fields untouched without a match, and otherwise leaves the fields of the last matching context |
| CustomFieldContext.ReadContext | jira/resource_custom_field_context.go:111-138 | a malformed identifier returns the format error with no request; otherwise one listing of the identifier's field; a failed listing returns the fetch error; the identifier and scopes never change |
| CustomFieldContext.ReadContextOutcome | jira/resource_custom_field_context.go:130-137 | a successful listing is never an error; with no matching context the state is unchanged, and with matches the fields are those of the last match |
| CustomFieldContext.CreateContextResource | jira/resource_custom_field_context.go:88-109 | create posts name, description and both scopes; a failed post returns the create error; otherwise the record takes the returned context id and the identifier field_id:returned id, and state, later requests and error are those of reading that record; a well-formed one is read back with one listing |
| CustomFieldContext.CreateRecordsContext | jira/resource_custom_field_context.go:105-106 | a create with well-formed ids whose read-back listing succeeds does not fail, and keeps the returned context id and the field id; without a listed match the record is the posted one, and otherwise its fields are those of the last listed context carrying the new id |
| CustomFieldContext.CreateReadBackFailed | jira/resource_custom_field_context.go:105-108 | a create with well-formed ids whose read-back listing fails returns the fetch error, keeping the recorded context id and identifier, after the post and the failed listing |
| CustomFieldContext.UpdateContextResource | jira/resource_custom_field_context.go:140-156 | update sends only name and description, to the identifier's first two ':'-pieces, never the scopes, never creates or deletes; a refused update returns the update error with the state unchanged; an accepted one ends exactly as a read of the record |
| CustomFieldContext.UpdateTarget | jira/resource_custom_field_context.go:148-149 | for any identifier that starts with field_id:context_id (':'-free parts) and has nothing or further ':'-pieces after it, update addresses exactly that field and context |
| CustomFieldContext.DeleteContextResource | jira/resource_custom_field_context.go:158-169 | delete issues one delete request to the identifier's first two ':'-pieces and succeeds exactly when it is accepted; a refusal carries the update error text, which the delete path reuses |
| CustomFieldContext.DeleteTarget | jira/resource_custom_field_context.go:161-162 | for any identifier that starts with field_id:context_id (':'-free parts) and has nothing or further ':'-pieces after it, delete addresses exactly that field and context |
| CustomFieldContext.ExtraPiecesIgnored | jira/resource_custom_field_context.go:161-162 | an identifier with a third piece is rejected by read, yet delete addresses its first two pieces |
| ContextDataSource.SetContextFields | jira/data_source_custom_field_context.go:98-105 | the field id is the caller's, and the copied fields give back exactly the context they were copied from |
| ContextDataSource.ContextOfInjective | jira/data_source_custom_field_context.go:98-105 | two field sets that describe the same context for the same field are equal, so the copy has a single outcome |
| ContextDataSource.ScanLastMatch | jira/data_source_custom_field_context.go:77-82 | the scan ends on the last context whose id matches, whatever it started with |
| ContextDataSource.ScanNoMatch | jira/data_source_custom_field_context.go:77-82 | with no matching context the scan keeps its starting value |
| ContextDataSource.SelectContext | jira/data_source_custom_field_context.go:76-89 | a failure is the "Unable to determine context" error; a success is a listed context that is not the zero context |
| ContextDataSource.SelectById | jira/data_source_custom_field_context.go:76-89 | with a configured id, selection succeeds exactly when some listed context carries it, and yields the last such context |
| ContextDataSource.SelectSingle | jira/data_source_custom_field_context.go:83-89 | without a configured id, selection succeeds exactly when there is one listed context that is not the zero context, and yields it |
| ContextDataSource.ReadDataSource | jira/data_source_custom_field_context.go:64-96 | one listing of the field; a failed listing or failed selection returns its error and leaves the state; a successful listing with a successful selection is never an error; on success the identifier is field_id:selected id and the fields describe the selected context |

## Left out

- HTTP transport, the REST client, endpoint builders, JSON encoding and
  logging are not modelled. Responses are inputs, and requests are output
  records without their endpoint paths. All options requests address the
  resource's own field and context.
- Terraform's schema declarations, importers and the attribute get/set
  machinery are not modelled. Resource state is a plain record.
- The issue-type and project-id attributes are declared as sets
  (jira/resource_custom_field_context.go:60-71), but create reads them with
  a type assertion to a list of strings (lines 94-95). A set value does not
  satisfy that assertion, so as written the create would panic before its
  request. The model does not follow that path; see the next line.
- CreateContextResource: assumes the type assertions on the issue-type and
  project-id attributes yield the configured ids as lists, and posts them as
  plain sequences. The panic the assertions would raise on set values is
  not modelled.
- Pagination is not modelled, as in the Go code: the contexts response
  carries `isLast` and `nextPage` but nothing reads them
  (jira/data_source_custom_field_context.go:19-27), and the options response
  keeps only `values` (jira/resource_custom_field_options.go:17-19). Every listing input is that
  one response page, so options beyond the first page are never deleted
  by the update nor stored by read.
- The causes inside wrapped errors are not modelled. Only the wrapping
  context text is kept.
- The custom-field resource and the single-option resource are straight
  request/response mapping and are not part of this model. From the
  single-option resource, only its option record is reused.
- GoStrings.Split: Go splits on a separator string. Every call here passes
  ":", so the model only covers a one-character separator.
- UpdateContextResource: an identifier with fewer than two ':'-pieces makes
  the Go code crash on an out-of-range index. The model requires two pieces
  instead of modelling the crash.
- DeleteContextResource: the same two-piece precondition replaces the crash
  on a malformed identifier.
