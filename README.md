# n8n workflow credential sanitizer, modelled in Dafny

The repository ships exported n8n workflow documents. Before publishing them,
`sanitize_workflow` walks a parsed workflow document. It looks at every node in
its `nodes` list and every entry of each node's `credentials` dict. Each
credential-info dict that has an `id` gets two placeholders:

- `id` becomes `YOUR_CREDENTIAL_ID_HERE`;
- `name` becomes `YOUR_<TYPE>_CREDENTIAL`, where `<TYPE>` is the credential
  type in upper case. `name` is added if the dict does not have one.

The function then runs a pass over the `settings` keys that changes nothing. It
returns the same document object it was given.

The project models this function twice:

- `SanitizeWorkflows.Sanitize` (file `sanitize_workflows.dfy`) is a pure
  function on JSON values (`json.dfy`).
  - Dicts are ordered association lists (`dicts.dfy`), so key order behaves as
    in Python. Assigning an existing key keeps its position; assigning a new
    key appends it.
- `WorkflowObjects.SanitizeWorkflow` (file `workflow_objects.dfy`) is the
  in-place version, written as classes and nested loops.
  - `CredentialInfo` is the dict the pass writes into.
  - `CredentialMap`, `Node` and `Workflow` are the dicts it only reads.
  - It is proved to return its argument. It is also proved to leave the
    document holding exactly `Sanitize` of what the document held before.

`sanitize_properties.dfy` proves the following about `Sanitize`:

- where the placeholders end up;
- what the pass leaves alone;
- that a second pass changes nothing;
- a worked example with one Slack credential.

The pass adds `name` to a credential-info dict that has an `id` but no `name`,
so such a dict gains exactly one key; every other dict keeps its keys.

## Model

| member | source | states |
|---|---|---|
| Dicts.IndexOf | sanitize_workflows.py:17-18 | the position found for a present key holds that key, and no earlier position does |
| Dicts.Lookup | sanitize_workflows.py:15-17 | `k in d` and `d[k]`: a value is found exactly when the key is present |
| Dicts.HasKeyIffStored | sanitize_workflows.py:15 | `k in d` holds exactly when some entry of `d` is stored under `k` |
| Dicts.LookupFindsStoredValue | sanitize_workflows.py:16-18 | `d[k]` on a dict with unique keys returns the value stored under `k`, for every entry of the dict |
| Dicts.Assign | sanitize_workflows.py:20-21 | `d[k] = v`: `k` then maps to `v` and every other key keeps its value; an existing key keeps its position and a new key is appended; assigning the value already held changes nothing; unique keys stay unique |
| SanitizeWorkflows.Upper | sanitize_workflows.py:21 | `cred_type.upper()` on ASCII: same length, no lower-case letter left, each lower-case letter becomes its upper-case letter, every other character is kept |
| SanitizeWorkflows.CredentialNameFormat | sanitize_workflows.py:21 | the placeholder `name` is `YOUR_`, then the credential type in upper case, then `_CREDENTIAL`; it is 16 characters longer than the type and holds no lower-case letter |
| SanitizeWorkflows.HasId | sanitize_workflows.py:19 | the entry qualifies exactly when it is a dict and one of its entries is stored under `id` |
| SanitizeWorkflows.SanitizeCredential | sanitize_workflows.py:19-21 | a dict with `id` ends with the `id` placeholder and the `name` placeholder of its type; its other fields are unchanged; its keys grow only by `name`, and only when `name` was absent; any other value is returned unchanged |
| SanitizeWorkflows.SanitizeCredentials | sanitize_workflows.py:18-21 | the loop over `credentials.items()` keeps the keys and their order, and the entry under each credential type becomes that entry sanitized under that type |
| SanitizeWorkflows.SanitizeNode | sanitize_workflows.py:17-21 | a node keeps its keys and every field but `credentials`; its `credentials` dict, if any, becomes every entry sanitized under its own key; a node without `credentials` is unchanged |
| SanitizeWorkflows.SanitizeNodes | sanitize_workflows.py:16-21 | the loop over `nodes` keeps the list's length and order, and node `i` becomes node `i` sanitized (so, by SanitizeNode's contract, it keeps its keys and every field but `credentials`) |
| SanitizeWorkflows.Sanitize | sanitize_workflows.py:11-30 | the document keeps its keys and their order; every value but `nodes` is unchanged, `settings` included; the node list keeps its length and node `i` becomes node `i` sanitized; a document without `nodes` is unchanged |
| SanitizeProperties.SanitizedCredentialAt | sanitize_workflows.py:15-21 | node `n` has a credentials dict after the pass exactly when it had one before, with the same keys; the entry under each type becomes the old entry sanitized under that type |
| SanitizeProperties.CredentialPlaceholdersSet | sanitize_workflows.py:19-21 | every credential-info dict with `id`, in every node, ends with `id` = `YOUR_CREDENTIAL_ID_HERE` and `name` = `YOUR_<TYPE>_CREDENTIAL`; its other fields are unchanged and its only possible new key is `name` |
| SanitizeProperties.OtherCredentialUntouched | sanitize_workflows.py:19 | a credential entry that is not a dict, or is a dict without `id`, is left exactly as it was |
| SanitizeProperties.SanitizeCredentialIdempotent | sanitize_workflows.py:19-21 | sanitizing a credential entry twice gives the same result as sanitizing it once |
| SanitizeProperties.SanitizeNodeIdempotent | sanitize_workflows.py:17-21 | sanitizing a node twice gives the same result as sanitizing it once |
| SanitizeProperties.SanitizeIdempotent | sanitize_workflows.py:11-30 | sanitizing a document twice gives the same result as sanitizing it once |
| SanitizeProperties.SlackCredentialExample | sanitize_workflows.py:19-21 | the `slackApi` credential `{id: abc123, name: My Slack}` becomes `{id: YOUR_CREDENTIAL_ID_HERE, name: YOUR_SLACKAPI_CREDENTIAL}` |
| SanitizeProperties.SlackNodeExample | sanitize_workflows.py:17-21 | the node holding that Slack credential is accepted and sanitizes to the same node with the placeholders in place |
| SanitizeProperties.SlackExample | sanitize_workflows.py:11-30 | a one-node document with that Slack credential is accepted, and sanitizes to the same document with the placeholders in place |
| WorkflowObjects.CredentialInfo.Put | sanitize_workflows.py:20-21 | `cred_info[key] = value` leaves the dict holding the old entries with `key` assigned |
| WorkflowObjects.SanitizeCredentialInfo | sanitize_workflows.py:19-21 | after the loop body, a credential-info dict holds the sanitized entry of what it held before |
| WorkflowObjects.SanitizeCredentialMap | sanitize_workflows.py:18-21 | after the loop over `credentials.items()`, the credentials dict holds every entry sanitized under its key |
| WorkflowObjects.SanitizeNodeObject | sanitize_workflows.py:17-21 | a valid node object holds a well-shaped node; after the pass it holds the sanitized node |
| WorkflowObjects.SanitizeNodeList | sanitize_workflows.py:16-21 | after the loop over `nodes`, every node holds the sanitized node it held before; nodes share no credential-info dict, so sanitizing one node does not change another |
| WorkflowObjects.SanitizeWorkflow | sanitize_workflows.py:11-30 | returns the very object it was given; that object held a well-shaped document and now holds `Sanitize` of it |
| WorkflowObjects.WorkflowModelAfterNodes | sanitize_workflows.py:15-16 | once every node holds its sanitized node, the document holds the sanitized document |
| WorkflowObjects.NodeModelWellShaped | sanitize_workflows.py:17-18 | a valid node object holds a node whose `credentials`, if present, is a dict |
| WorkflowObjects.ModelWellShaped | sanitize_workflows.py:15-26 | a valid document object holds a document the pure sanitizer accepts |

## Left out

- `process_file` and `main` (sanitize_workflows.py:32-76) are left out. They only do I/O: reading and writing files, `json.load`/`json.dump` with indentation, progress output, the hard-coded file list, creating the output directory, and counting successes.
- Sanitize: requires a well-shaped document. Inputs on which the Python code raises are not modelled as errors:
  - a document that is null, a boolean or a number, because `in` raises on it (line 15);
  - a document that is a list or a string containing `nodes` (as an element or a substring), because `'nodes' in` succeeds and the subscript then raises (line 16); likewise one containing `settings` (line 26);
  - a `nodes` value that is null, a boolean or a number, because it cannot be iterated (line 16);
  - a node that is null, a boolean or a number, because `in` raises on it (line 17);
  - a node that is a string or a list containing `credentials`, or a key of a dict `nodes` value containing `credentials`, because the subscript raises (line 18);
  - a `credentials` value that is not a dict, because it has no `.items()` (line 18);
  - a `settings` value that is not a dict, because it has no `.keys()` (line 26).
- Sanitize: the well-shaped precondition also excludes shapes that Python walks without raising. It raises on none of them only when every `in` test on them fails:
  - a document that is a list or a string containing neither `nodes` nor `settings` is returned unchanged;
  - a `nodes` value that is a string, or a dict none of whose keys contains `credentials`, is iterated character by character or key by key, and every step is skipped;
  - a node that is a string or a list not containing `credentials` is skipped.
- SanitizeWorkflow: on a document whose `settings` is not a dict, Python raises after it has already rewritten the credentials. That partial effect is not modelled, because the precondition excludes such a document.
- Upper: models `str.upper()` on ASCII letters only. Non-ASCII case mapping is not modelled, including mappings that change length, such as `ß` becoming `SS`.
- JSON numbers are kept as their literal text. The pass never reads or changes them.
- SanitizeWorkflow: the document, node and credentials dicts and the `nodes` list are immutable values here, because the pass never writes them. Changes a caller makes to them between passes are not modelled.
- SanitizeWorkflow: requires the parsed document to be a tree, as `json.load` builds it. Two entries sharing one credential-info dict are not modelled.
- The settings pass (sanitize_workflows.py:24-28) is modelled as written: a loop that compares each key with the two listed keys and changes nothing. The comment above it suggests an intent to remove sensitive settings. That intent is not modelled, because the code gives no way to tell which keys it meant to keep.
