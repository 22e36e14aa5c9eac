/** What the sanitizer promises about whole documents: where the placeholders
    end up, what it leaves alone, and that a second pass changes nothing. */
module SanitizeProperties {
  import opened Dicts
  import opened JsonModel
  import opened SanitizeWorkflows

  /** `doc['nodes'][n]['credentials']`, when that path exists. */
  function CredentialsOf(doc: Json, n: nat): Option<seq<(string, Json)>>
    requires doc.JObj?
  {
    if n < |Nodes(doc)| && Nodes(doc)[n].JObj? then
      var creds := Lookup(Nodes(doc)[n].fields, "credentials");
      if creds.Some? && creds.value.JObj? then Some(creds.value.fields) else None
    else
      None
  }

  /** `doc['nodes'][n]['credentials'][credType]`, when that path exists. */
  function CredentialOf(doc: Json, n: nat, credType: string): Option<Json>
    requires doc.JObj?
  {
    var creds := CredentialsOf(doc, n);
    if creds.Some? then Lookup(creds.value, credType) else None
  }

  /** The pass walks every node and every credential entry: the credentials
      object of node `n` is present after the pass exactly when it was
      before, with the same keys in the same order, and the entry under
      `credType` is the original entry sanitized under `credType`. */
  lemma SanitizedCredentialAt(doc: Json, n: nat, credType: string)
    requires WellShaped(doc)
    ensures CredentialsOf(Sanitize(doc), n).Some? <==> CredentialsOf(doc, n).Some?
    ensures CredentialsOf(doc, n).Some? ==>
              Keys(CredentialsOf(Sanitize(doc), n).value) == Keys(CredentialsOf(doc, n).value)
    ensures CredentialOf(Sanitize(doc), n, credType) ==
              match CredentialOf(doc, n, credType)
              case None => None
              case Some(info) => Some(SanitizeCredential(credType, info))
  {
    var r := Sanitize(doc);
    if n < |Nodes(doc)| {
      var node := Nodes(doc)[n];
      assert WellShapedNode(node);
      assert Nodes(r)[n] == SanitizeNode(node);
    }
  }

  /** A credential entry that is an object with an `id` ends with the `id`
      placeholder and the `name` placeholder of its type; its other fields
      are unchanged and its only possible new key is `name`. */
  lemma CredentialPlaceholdersSet(doc: Json, n: nat, credType: string)
    requires WellShaped(doc)
    requires CredentialOf(doc, n, credType).Some? && HasId(CredentialOf(doc, n, credType).value)
    ensures CredentialOf(Sanitize(doc), n, credType).Some?
    ensures var before := CredentialOf(doc, n, credType).value;
            var after := CredentialOf(Sanitize(doc), n, credType).value;
            && HasId(after)
            && Lookup(after.fields, "id") == Some(JStr(CredentialIdPlaceholder))
            && Lookup(after.fields, "name") == Some(JStr("YOUR_" + Upper(credType) + "_CREDENTIAL"))
            && (forall k :: k != "id" && k != "name" ==> Lookup(after.fields, k) == Lookup(before.fields, k))
            && (forall k :: k in Keys(after.fields) ==> k in Keys(before.fields) || k == "name")
  {
    SanitizedCredentialAt(doc, n, credType);
  }

  /** A credential entry that is not an object, or is an object without `id`,
      is left exactly as it was. */
  lemma OtherCredentialUntouched(doc: Json, n: nat, credType: string)
    requires WellShaped(doc)
    requires CredentialOf(doc, n, credType).Some? && !HasId(CredentialOf(doc, n, credType).value)
    ensures CredentialOf(Sanitize(doc), n, credType) == CredentialOf(doc, n, credType)
  {
    SanitizedCredentialAt(doc, n, credType);
  }

  /** Sanitizing a credential entry twice is sanitizing it once. */
  lemma SanitizeCredentialIdempotent(credType: string, info: Json)
    ensures SanitizeCredential(credType, SanitizeCredential(credType, info)) == SanitizeCredential(credType, info)
  {
  }

  /** Sanitizing a node twice is sanitizing it once. */
  lemma SanitizeNodeIdempotent(node: Json)
    requires WellShapedNode(node)
    ensures SanitizeNode(SanitizeNode(node)) == SanitizeNode(node)
  {
    if HasKey(node.fields, "credentials") {
      var creds := Lookup(node.fields, "credentials").value.fields;
      var once := SanitizeCredentials(creds);
      forall i | 0 <= i < |creds|
        ensures SanitizeCredentials(once)[i] == once[i]
      {
        SanitizeCredentialIdempotent(creds[i].0, creds[i].1);
      }
      assert SanitizeCredentials(once) == once;
    }
  }

  /** Running the sanitizer on its own output changes nothing: the
      placeholders overwrite themselves. */
  lemma SanitizeIdempotent(doc: Json)
    requires WellShaped(doc)
    ensures Sanitize(Sanitize(doc)) == Sanitize(doc)
  {
    if HasKey(doc.fields, "nodes") {
      var nodes := Lookup(doc.fields, "nodes").value.items;
      var once := SanitizeNodes(nodes);
      forall i | 0 <= i < |nodes|
        ensures SanitizeNodes(once)[i] == once[i]
      {
        SanitizeNodeIdempotent(nodes[i]);
      }
      assert SanitizeNodes(once) == once;
    }
  }

  /** A Slack credential, sanitized. */
  lemma SlackCredentialExample()
    ensures SanitizeCredential("slackApi", JObj([("id", JStr("abc123")), ("name", JStr("My Slack"))]))
            == JObj([("id", JStr("YOUR_CREDENTIAL_ID_HERE")), ("name", JStr("YOUR_SLACKAPI_CREDENTIAL"))])
  {
    var info := [("id", JStr("abc123")), ("name", JStr("My Slack"))];
    assert Keys(info) == ["id", "name"];
    FirstOccurrenceIsIndexOf(info, "id", 0);
    var withId := [("id", JStr(CredentialIdPlaceholder)), info[1]];
    assert Assign(info, "id", JStr(CredentialIdPlaceholder)) == withId;
    assert Keys(withId) == ["id", "name"];
    FirstOccurrenceIsIndexOf(withId, "name", 1);
    assert Upper("slackApi") == "SLACKAPI";
    assert CredentialName("slackApi") == "YOUR_SLACKAPI_CREDENTIAL";
    assert Assign(withId, "name", JStr("YOUR_SLACKAPI_CREDENTIAL")) == [withId[0], ("name", JStr("YOUR_SLACKAPI_CREDENTIAL"))];
  }

  /** A node holding that Slack credential, sanitized. */
  lemma SlackNodeExample()
    ensures
      var node := JObj([("credentials", JObj([
                    ("slackApi", JObj([("id", JStr("abc123")), ("name", JStr("My Slack"))]))]))]);
      WellShapedNode(node) &&
      SanitizeNode(node) ==
        JObj([("credentials", JObj([
          ("slackApi", JObj([("id", JStr("YOUR_CREDENTIAL_ID_HERE")),
                             ("name", JStr("YOUR_SLACKAPI_CREDENTIAL"))]))]))])
  {
    SlackCredentialExample();
    var clean := JObj([("id", JStr("YOUR_CREDENTIAL_ID_HERE")), ("name", JStr("YOUR_SLACKAPI_CREDENTIAL"))]);
    var creds := [("slackApi", JObj([("id", JStr("abc123")), ("name", JStr("My Slack"))]))];
    assert SanitizeCredentials(creds)[0] == ("slackApi", clean);
    assert SanitizeCredentials(creds) == [("slackApi", clean)];
    var node := JObj([("credentials", JObj(creds))]);
    assert Keys(node.fields) == ["credentials"];
    FirstOccurrenceIsIndexOf(node.fields, "credentials", 0);
  }

  /** End to end: a document with one node holding that Slack credential. */
  lemma SlackExample()
    ensures
      var doc := JObj([("nodes", JArr([JObj([("credentials", JObj([
                   ("slackApi", JObj([("id", JStr("abc123")), ("name", JStr("My Slack"))]))]))])]))]);
      WellShaped(doc) &&
      Sanitize(doc) ==
        JObj([("nodes", JArr([JObj([("credentials", JObj([
          ("slackApi", JObj([("id", JStr("YOUR_CREDENTIAL_ID_HERE")),
                             ("name", JStr("YOUR_SLACKAPI_CREDENTIAL"))]))]))])]))])
  {
    SlackNodeExample();
    var node := JObj([("credentials", JObj([
                  ("slackApi", JObj([("id", JStr("abc123")), ("name", JStr("My Slack"))]))]))]);
    var doc := JObj([("nodes", JArr([node]))]);
    assert Keys(doc.fields) == ["nodes"];
    FirstOccurrenceIsIndexOf(doc.fields, "nodes", 0);
    assert SanitizeNodes([node]) == [SanitizeNode(node)];
  }
}
