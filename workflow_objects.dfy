/** The sanitizer as the program runs it: nested loops over the parsed
    document's objects, writing `id` and `name` into credential-info dicts in
    place and returning the document object it was given.

    Each Python dict the pass walks is an object here. The pass only reads the
    document, the node dicts and the credentials dicts, so their entries are
    fixed (`const`); it writes only into credential-info dicts, whose entries
    are a mutable field. Model() of each object is the JSON value it holds, and
    SanitizeWorkflow is proved to leave the document holding exactly
    Sanitize of what it held before.
 */
module WorkflowObjects {
  import opened Dicts
  import opened JsonModel
  import opened SanitizeWorkflows

  /** A credential-info dict: the one kind of object the pass writes to. */
  class CredentialInfo {
    var entries: seq<(string, Json)>

    constructor (entries: seq<(string, Json)>)
      ensures this.entries == entries
    {
      this.entries := entries;
    }

    /** `cred_info[key] = value` */
    method Put(key: string, value: Json)
      modifies this
      ensures entries == Assign(old(entries), key, value)
    {
      entries := Assign(entries, key, value);
    }
  }

  /** A value in a credentials dict: a dict (a CredentialInfo object) or any
      other JSON value. */
  datatype CredentialValue = Info(info: CredentialInfo) | Other(value: Json)

  ghost function CredentialValueJson(v: CredentialValue): Json
    reads if v.Info? then {v.info} else {}
  {
    match v
    case Info(info) => JObj(info.entries)
    case Other(value) => value
  }

  /** A node's `credentials` dict. */
  class CredentialMap {
    const entries: seq<(string, CredentialValue)>

    constructor (entries: seq<(string, CredentialValue)>)
      ensures this.entries == entries
    {
      this.entries := entries;
    }

    ghost function Infos(): set<CredentialInfo>
    {
      set i | 0 <= i < |entries| && entries[i].1.Info? :: entries[i].1.info
    }

    /** A dict whose dict values are all CredentialInfo objects, no two
        entries sharing one (json.load builds a tree). */
    ghost predicate Valid()
    {
      && UniqueKeys(entries)
      && (forall i :: 0 <= i < |entries| && entries[i].1.Other? ==> !entries[i].1.value.JObj?)
      && (forall i, j :: 0 <= i < j < |entries| && entries[i].1.Info? && entries[j].1.Info? ==>
            entries[i].1.info != entries[j].1.info)
    }

    ghost function Model(): Json
      reads Infos()
    {
      JObj(seq(|entries|, i requires 0 <= i < |entries| reads Infos() =>
        (entries[i].0, CredentialValueJson(entries[i].1))))
    }
  }

  /** A value in a node dict: the `credentials` dict or any other JSON value. */
  datatype NodeValue = CredentialsRef(credentials: CredentialMap) | NodeField(value: Json)

  ghost function NodeValueJson(v: NodeValue): Json
    reads if v.CredentialsRef? then v.credentials.Infos() else {}
  {
    match v
    case CredentialsRef(creds) => creds.Model()
    case NodeField(value) => value
  }

  /** A node dict of the `nodes` list. */
  class Node {
    const entries: seq<(string, NodeValue)>

    constructor (entries: seq<(string, NodeValue)>)
      ensures this.entries == entries
    {
      this.entries := entries;
    }

    ghost function Infos(): set<CredentialInfo>
    {
      set i, x | 0 <= i < |entries| && entries[i].1.CredentialsRef? && x in entries[i].1.credentials.Infos() :: x
    }

    /** A dict whose `credentials` value, and only that one, is a valid
        CredentialMap. */
    ghost predicate Valid()
    {
      && UniqueKeys(entries)
      && (forall i :: 0 <= i < |entries| ==> (entries[i].0 == "credentials" <==> entries[i].1.CredentialsRef?))
      && (forall i :: 0 <= i < |entries| && entries[i].1.CredentialsRef? ==> entries[i].1.credentials.Valid())
    }

    ghost function Model(): Json
      reads Infos()
    {
      JObj(seq(|entries|, i requires 0 <= i < |entries| reads Infos() =>
        (entries[i].0, NodeValueJson(entries[i].1))))
    }
  }

  ghost function NodesInfos(nodes: seq<Node>): set<CredentialInfo>
  {
    set k, x | 0 <= k < |nodes| && x in nodes[k].Infos() :: x
  }

  /** A list of valid nodes, no two of which share a credential-info dict. */
  ghost predicate NodesValid(nodes: seq<Node>)
  {
    && (forall k :: 0 <= k < |nodes| ==> nodes[k].Valid())
    && (forall a, b :: 0 <= a < b < |nodes| ==> nodes[a].Infos() !! nodes[b].Infos())
  }

  /** A value in the document dict: the `nodes` list or any other JSON value. */
  datatype WorkflowValue = NodesRef(nodes: seq<Node>) | Field(value: Json)

  ghost function WorkflowValueJson(v: WorkflowValue): Json
    reads if v.NodesRef? then NodesInfos(v.nodes) else {}
  {
    match v
    case NodesRef(nodes) =>
      JArr(seq(|nodes|, k requires 0 <= k < |nodes| reads NodesInfos(nodes) => nodes[k].Model()))
    case Field(value) => value
  }

  /** The parsed workflow document. */
  class Workflow {
    const entries: seq<(string, WorkflowValue)>

    constructor (entries: seq<(string, WorkflowValue)>)
      ensures this.entries == entries
    {
      this.entries := entries;
    }

    /** Every credential-info dict reachable through `nodes`: what the pass
        may write to. */
    ghost function Infos(): set<CredentialInfo>
    {
      set i, x | 0 <= i < |entries| && entries[i].1.NodesRef? && x in NodesInfos(entries[i].1.nodes) :: x
    }

    /** A document the pass walks without raising: `nodes`, and only that
        key, holds the node list; `settings`, if present, is a dict. */
    ghost predicate Valid()
    {
      && UniqueKeys(entries)
      && (forall i :: 0 <= i < |entries| ==> (entries[i].0 == "nodes" <==> entries[i].1.NodesRef?))
      && (forall i :: 0 <= i < |entries| && entries[i].0 == "settings" ==>
            entries[i].1.Field? && entries[i].1.value.JObj?)
      && (forall i :: 0 <= i < |entries| && entries[i].1.NodesRef? ==> NodesValid(entries[i].1.nodes))
    }

    ghost function Model(): Json
      reads Infos()
    {
      JObj(seq(|entries|, i requires 0 <= i < |entries| reads Infos() =>
        (entries[i].0, WorkflowValueJson(entries[i].1))))
    }
  }

  /** The body of the loop over `node['credentials'].items()` for an entry
      whose value is a dict: when it has an `id`, that `id` and its `name` are
      overwritten; afterwards the dict holds SanitizeCredential of what it held
      before. */
  method SanitizeCredentialInfo(credType: string, info: CredentialInfo)
    modifies info
    ensures JObj(info.entries) == SanitizeCredential(credType, JObj(old(info.entries)))
  {
    if HasKey(info.entries, "id") {
      info.Put("id", JStr(CredentialIdPlaceholder));
      info.Put("name", JStr(CredentialName(credType)));
    }
  }

  /** The loop over `node['credentials'].items()`: every credential-info
      dict is sanitized under the key it is stored under; afterwards the
      credentials dict holds SanitizeCredentials of what it held before. */
  method SanitizeCredentialMap(creds: CredentialMap)
    requires creds.Valid()
    modifies creds.Infos()
    ensures creds.Model() == JObj(SanitizeCredentials(old(creds.Model()).fields))
  {
    var entries := creds.entries;
    for j := 0 to |entries|
      invariant forall c :: 0 <= c < j && entries[c].1.Info? ==>
                  JObj(entries[c].1.info.entries) ==
                  SanitizeCredential(entries[c].0, JObj(old(entries[c].1.info.entries)))
      invariant forall c :: j <= c < |entries| && entries[c].1.Info? ==>
                  entries[c].1.info.entries == old(entries[c].1.info.entries)
    {
      var credType := entries[j].0;
      var credInfo := entries[j].1;
      if credInfo.Info? {
        assert credInfo.info in creds.Infos();
        InfoOwnedByOneEntry(creds, j);
        SanitizeCredentialInfo(credType, credInfo.info);
      }
    }
    forall c | 0 <= c < |entries|
      ensures creds.Model().fields[c] == SanitizeCredentials(old(creds.Model()).fields)[c]
    {
    }
  }

  /** No entry other than `j` holds the credential-info dict of entry `j`. */
  lemma InfoOwnedByOneEntry(creds: CredentialMap, j: nat)
    requires creds.Valid() && j < |creds.entries| && creds.entries[j].1.Info?
    ensures forall c :: 0 <= c < |creds.entries| && c != j && creds.entries[c].1.Info? ==>
              creds.entries[c].1.info != creds.entries[j].1.info
  {
  }

  /** The body of the loop over the nodes: a node with `credentials` has that
      dict sanitized; afterwards the node holds SanitizeNode of what it held
      before. */
  method SanitizeNodeObject(node: Node)
    requires node.Valid()
    modifies node.Infos()
    ensures WellShapedNode(old(node.Model())) && node.Model() == SanitizeNode(old(node.Model()))
  {
    NodeModelWellShaped(node);
    NodeModelKeys(node);
    if HasKey(node.entries, "credentials") {
      ghost var e := IndexOf(node.entries, "credentials");
      var creds := Lookup(node.entries, "credentials").value.credentials;
      assert creds == node.entries[e].1.credentials && creds.Valid();
      SanitizeCredentialMap(creds);
    }
  }

  /** The loop over `workflow_data['nodes']`: afterwards node `k` holds
      SanitizeNode of what it held before, for every `k`. */
  method SanitizeNodeList(nodes: seq<Node>)
    requires NodesValid(nodes)
    modifies NodesInfos(nodes)
    ensures forall k :: 0 <= k < |nodes| ==>
              WellShapedNode(old(nodes[k].Model())) && nodes[k].Model() == SanitizeNode(old(nodes[k].Model()))
  {
    for i := 0 to |nodes|
      invariant forall k :: 0 <= k < i ==>
                  WellShapedNode(old(nodes[k].Model())) && nodes[k].Model() == SanitizeNode(old(nodes[k].Model()))
      invariant forall k :: i <= k < |nodes| ==> nodes[k].Model() == old(nodes[k].Model())
    {
      forall x | x in nodes[i].Infos() ensures x in NodesInfos(nodes) { }
      label Before:
      SanitizeNodeObject(nodes[i]);
      forall k | 0 <= k < |nodes| && k != i
        ensures nodes[k].Model() == old@Before(nodes[k].Model())
      {
        if k < i {
          assert nodes[k].Infos() !! nodes[i].Infos();
        } else {
          assert nodes[i].Infos() !! nodes[k].Infos();
        }
      }
    }
  }

  /** `sanitize_workflow(workflow_data)`: sanitizes the credential-info dicts
      in place and returns the very object it was given, which now holds
      Sanitize of the document it held before. */
  method SanitizeWorkflow(w: Workflow) returns (r: Workflow)
    requires w.Valid()
    modifies w.Infos()
    ensures r == w
    ensures WellShaped(old(w.Model())) && w.Model() == Sanitize(old(w.Model()))
  {
    ModelWellShaped(w);
    ModelKeys(w);
    if HasKey(w.entries, "nodes") {
      ghost var p := IndexOf(w.entries, "nodes");
      var nodes := Lookup(w.entries, "nodes").value.nodes;
      assert nodes == w.entries[p].1.nodes && NodesValid(nodes);
      forall x | x in NodesInfos(nodes) ensures x in w.Infos() { }
      ghost var before := old(w.Model());
      assert forall i :: 0 <= i < |w.entries| && i != p ==> before.fields[i] == (w.entries[i].0, w.entries[i].1.value);
      assert before.fields[p].1 == old(WorkflowValueJson(w.entries[p].1));
      SanitizeNodeList(nodes);
      WorkflowModelAfterNodes(w, p, before);
    }

    // The settings pass compares each key with SettingsKeys and moves on.
    if HasKey(w.entries, "settings") {
      var settings := Lookup(w.entries, "settings").value.value;
      var keys := Keys(settings.fields);
      for k := 0 to |keys| {
        if keys[k] !in SettingsKeys {
          continue;
        }
      }
    }
    r := w;
  }

  /** The document holds the sanitized document once each of its nodes holds
      its sanitized node (`before` is what it held at the start). */
  lemma WorkflowModelAfterNodes(w: Workflow, p: nat, before: Json)
    requires w.Valid() && p < |w.entries| && w.entries[p].0 == "nodes"
    requires WellShaped(before) && Keys(before.fields) == Keys(w.entries)
    requires forall i :: 0 <= i < |w.entries| && i != p ==> before.fields[i] == (w.entries[i].0, w.entries[i].1.value)
    requires var nodes := w.entries[p].1.nodes;
             && before.fields[p].1.JArr? && |before.fields[p].1.items| == |nodes|
             && forall k :: 0 <= k < |nodes| ==>
                  WellShapedNode(before.fields[p].1.items[k]) &&
                  nodes[k].Model() == SanitizeNode(before.fields[p].1.items[k])
    ensures w.Model() == Sanitize(before)
  {
    var after := w.Model().fields;
    assert |before.fields| == |Keys(before.fields)| == |Keys(w.entries)| == |w.entries|;
    forall i | 0 <= i < |w.entries| ensures before.fields[i].0 == w.entries[i].0 {
      assert Keys(before.fields)[i] == Keys(w.entries)[i];
    }
    FirstOccurrenceIsIndexOf(before.fields, "nodes", p);
    var nodesBefore := before.fields[p].1;
    assert after[p].1 == JArr(SanitizeNodes(nodesBefore.items));
    forall i | 0 <= i < |w.entries| && i != p
      ensures after[i] == before.fields[i]
    {
      assert w.entries[i].1.Field?;
    }
    assert after == before.fields[p := ("nodes", JArr(SanitizeNodes(nodesBefore.items)))];
  }

  /** A node object holds a dict with the node's keys in the node's order. */
  lemma NodeModelKeys(node: Node)
    ensures Keys(node.Model().fields) == Keys(node.entries)
  {
  }

  /** The document object holds a dict with its own keys in its own order. */
  lemma ModelKeys(w: Workflow)
    ensures Keys(w.Model().fields) == Keys(w.entries)
  {
  }

  /** A valid node holds a node the pure sanitizer accepts. */
  lemma NodeModelWellShaped(node: Node)
    requires node.Valid()
    ensures WellShapedNode(node.Model())
  {
    var fields := node.Model().fields;
    assert Keys(fields) == Keys(node.entries);
    if HasKey(fields, "credentials") {
      SameKeysSameIndex(fields, node.entries, "credentials");
    }
  }

  /** A valid document holds a document the pure sanitizer accepts. */
  lemma ModelWellShaped(w: Workflow)
    requires w.Valid()
    ensures WellShaped(w.Model())
  {
    var fields := w.Model().fields;
    assert Keys(fields) == Keys(w.entries);
    if HasKey(fields, "nodes") {
      SameKeysSameIndex(fields, w.entries, "nodes");
      var nodes := w.entries[IndexOf(w.entries, "nodes")].1.nodes;
      forall k | 0 <= k < |nodes| ensures WellShapedNode(nodes[k].Model()) {
        NodeModelWellShaped(nodes[k]);
      }
    }
    if HasKey(fields, "settings") {
      SameKeysSameIndex(fields, w.entries, "settings");
    }
  }
}
