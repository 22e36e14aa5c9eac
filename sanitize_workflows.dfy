/** The credential sanitizer for exported n8n workflow documents, as a pure
    function on JSON values.

    A workflow document is a JSON object whose `nodes` list holds node objects;
    a node may carry a `credentials` object mapping a credential type (such as
    `slackApi`) to a credential-info object. Every credential-info object that
    has an `id` gets a placeholder `id` and a placeholder `name`; nothing else in
    the document changes. The imperative, in-place version of the same pass is
    WorkflowObjects.SanitizeWorkflow, proved equal to Sanitize below.
 */
module SanitizeWorkflows {
  import opened Dicts
  import opened JsonModel

  /** The value every sanitized credential `id` is set to. */
  const CredentialIdPlaceholder: string := "YOUR_CREDENTIAL_ID_HERE"

  /** The sensitive-looking settings keys the settings pass compares against. */
  const SettingsKeys: seq<string> := ["executionTimeout", "timezone"]

  function UpperChar(c: char): char
  {
    if 'a' <= c <= 'z' then (c as int - 'a' as int + 'A' as int) as char else c
  }

  /** `str.upper()` restricted to ASCII: each lower-case letter becomes the
      same letter in upper case, every other character is kept. */
  function Upper(s: string): (r: string)
    ensures |r| == |s|
    ensures forall i :: 0 <= i < |s| ==> !('a' <= r[i] <= 'z')
    ensures forall i :: 0 <= i < |s| && 'a' <= s[i] <= 'z' ==>
              'A' <= r[i] <= 'Z' && r[i] as int - 'A' as int == s[i] as int - 'a' as int
    ensures forall i :: 0 <= i < |s| && !('a' <= s[i] <= 'z') ==> r[i] == s[i]
  {
    seq(|s|, i requires 0 <= i < |s| => UpperChar(s[i]))
  }

  /** The placeholder `name` of a credential of type `credType`. */
  function CredentialName(credType: string): string
  {
    "YOUR_" + Upper(credType) + "_CREDENTIAL"
  }

  /** The placeholder `name` is the type in upper case between `YOUR_` and
      `_CREDENTIAL`, with no lower-case letter anywhere. */
  lemma CredentialNameFormat(credType: string)
    ensures var r := CredentialName(credType);
            && |r| == |credType| + 16
            && r[..5] == "YOUR_" && r[|r| - 11..] == "_CREDENTIAL"
            && r[5..|r| - 11] == Upper(credType)
            && forall i :: 0 <= i < |r| ==> !('a' <= r[i] <= 'z')
  {
    var r := CredentialName(credType);
    assert r == "YOUR_" + Upper(credType) + "_CREDENTIAL";
    forall i | 0 <= i < |r| ensures !('a' <= r[i] <= 'z') {
      if 5 <= i < 5 + |credType| {
        assert r[i] == Upper(credType)[i - 5];
      }
    }
  }

  /** `isinstance(cred_info, dict) and 'id' in cred_info` */
  predicate HasId(info: Json)
    ensures HasId(info) <==> info.JObj? && exists i :: 0 <= i < |info.fields| && info.fields[i].0 == "id"
  {
    if info.JObj? then HasKeyIffStored(info.fields, "id"); HasKey(info.fields, "id") else false
  }

  /** One credential entry `credType: info`. An object with an `id` gets the
      placeholder `id` and the placeholder `name` (`name` is added at the end
      when absent); its other fields and its key order are kept. Anything else
      is returned as it is. */
  function SanitizeCredential(credType: string, info: Json): (r: Json)
    ensures HasId(info) ==>
              && HasId(r)
              && Lookup(r.fields, "id") == Some(JStr(CredentialIdPlaceholder))
              && Lookup(r.fields, "name") == Some(JStr(CredentialName(credType)))
    ensures HasId(info) ==>
              forall k :: k != "id" && k != "name" ==> Lookup(r.fields, k) == Lookup(info.fields, k)
    ensures HasId(info) ==>
              Keys(r.fields) == if HasKey(info.fields, "name") then Keys(info.fields)
                                else Keys(info.fields) + ["name"]
    ensures !HasId(info) ==> r == info
  {
    if HasId(info) then
      var withId := Assign(info.fields, "id", JStr(CredentialIdPlaceholder));
      JObj(Assign(withId, "name", JStr(CredentialName(credType))))
    else
      info
  }

  /** The loop over `node['credentials'].items()`: the keys and their order
      stay as they were, and the entry under each key is that entry sanitized
      under that key. */
  function SanitizeCredentials(creds: seq<(string, Json)>): (r: seq<(string, Json)>)
    ensures Keys(r) == Keys(creds)
    ensures forall credType :: Lookup(r, credType) ==
              match Lookup(creds, credType)
              case None => None
              case Some(info) => Some(SanitizeCredential(credType, info))
  {
    var r := seq(|creds|, i requires 0 <= i < |creds| => (creds[i].0, SanitizeCredential(creds[i].0, creds[i].1)));
    assert Keys(r) == Keys(creds);
    assert forall credType :: Lookup(r, credType) ==
             match Lookup(creds, credType)
             case None => None
             case Some(info) => Some(SanitizeCredential(credType, info))
    by {
      forall credType {
        SameKeysSameIndex(creds, r, credType);
      }
    }
    r
  }

  /** A node the pass can walk: an object whose `credentials`, if present, is
      an object (anything else makes `.items()` raise). */
  predicate WellShapedNode(node: Json)
  {
    node.JObj? &&
    match Lookup(node.fields, "credentials")
    case None => true
    case Some(creds) => creds.JObj?
  }

  /** One node: its `credentials` object, if any, is sanitized in place. */
  function SanitizeNode(node: Json): (r: Json)
    requires WellShapedNode(node)
    ensures WellShapedNode(r)
    ensures Keys(r.fields) == Keys(node.fields)
    ensures forall k :: k != "credentials" ==> Lookup(r.fields, k) == Lookup(node.fields, k)
    ensures match Lookup(node.fields, "credentials")
            case None => r == node
            case Some(creds) => Lookup(r.fields, "credentials") == Some(JObj(SanitizeCredentials(creds.fields)))
  {
    if HasKey(node.fields, "credentials") then
      var creds := Lookup(node.fields, "credentials").value;
      JObj(Assign(node.fields, "credentials", JObj(SanitizeCredentials(creds.fields))))
    else
      node
  }

  /** A document the pass can walk without raising: an object whose `nodes`,
      if present, is a list of well-shaped nodes and whose `settings`, if
      present, is an object (its `.keys()` is taken). */
  predicate WellShaped(doc: Json)
  {
    && doc.JObj?
    && (match Lookup(doc.fields, "nodes")
        case None => true
        case Some(nodes) => nodes.JArr? && forall i :: 0 <= i < |nodes.items| ==> WellShapedNode(nodes.items[i]))
    && (match Lookup(doc.fields, "settings")
        case None => true
        case Some(settings) => settings.JObj?)
  }

  /** The nodes of a document, in order; none when `nodes` is absent. */
  function Nodes(doc: Json): seq<Json>
    requires doc.JObj?
  {
    var nodes := Lookup(doc.fields, "nodes");
    if nodes.Some? && nodes.value.JArr? then nodes.value.items else []
  }

  /** The loop over `workflow_data['nodes']`: the list keeps its length and
      order, and node `i` becomes node `i` sanitized. */
  function SanitizeNodes(nodes: seq<Json>): (r: seq<Json>)
    requires forall i :: 0 <= i < |nodes| ==> WellShapedNode(nodes[i])
    ensures |r| == |nodes|
    ensures forall i :: 0 <= i < |nodes| ==> r[i] == SanitizeNode(nodes[i])
  {
    seq(|nodes|, i requires 0 <= i < |nodes| => SanitizeNode(nodes[i]))
  }

  /** `sanitize_workflow`: the document with every node sanitized. The keys of
      the document and their order stay as they were, every value other than
      `nodes` (so `settings` too) is unchanged, and node `i` of the result is
      node `i` of the input, sanitized. A document without `nodes` is returned
      as it is. */
  function Sanitize(doc: Json): (r: Json)
    requires WellShaped(doc)
    ensures WellShaped(r)
    ensures Keys(r.fields) == Keys(doc.fields)
    ensures forall k :: k != "nodes" ==> Lookup(r.fields, k) == Lookup(doc.fields, k)
    ensures |Nodes(r)| == |Nodes(doc)|
    ensures forall i :: 0 <= i < |Nodes(doc)| ==> Nodes(r)[i] == SanitizeNode(Nodes(doc)[i])
    ensures !HasKey(doc.fields, "nodes") ==> r == doc
  {
    if HasKey(doc.fields, "nodes") then
      var nodes := Lookup(doc.fields, "nodes").value;
      JObj(Assign(doc.fields, "nodes", JArr(SanitizeNodes(nodes.items))))
    else
      doc
  }
}
