/**
 * The two Keycloak admin exchanges of heyserv/index.js: the form posted by
 * `getKeycloakAdminToken` (a client-credentials grant, section 4.4 of
 * RFC 6749) and the selection made by `getUserGoogleFederatedIdentity` from
 * the user's federated-identity records. The HTTP calls themselves are not
 * part of this module.
 */
module KeycloakAdmin {
  import opened Wrappers

  /** The backend client's credentials, read from the environment. */
  datatype BackendClient = BackendClient(clientId: string, clientSecret: string)

  /** The name/value pairs of a `URLSearchParams`, in insertion order. */
  type Form = seq<(string, string)>

  /** `URLSearchParams`, as far as `append` builds it. */
  class FormParams {
    var entries: Form

    constructor()
      ensures entries == []
    {
      entries := [];
    }

    /** `params.append(name, value)`: a new pair at the end; existing pairs of that name stay. */
    method Append(name: string, value: string)
      modifies this
      ensures entries == old(entries) + [(name, value)]
    {
      entries := entries + [(name, value)];
    }
  }

  /** `params.get(name)`: the value of the first pair with that name. */
  function FormValue(form: Form, name: string): (r: Option<string>)
    ensures r.None? <==> forall i :: 0 <= i < |form| ==> form[i].0 != name
    ensures r.Some? ==> exists i :: 0 <= i < |form| && form[i] == (name, r.value) &&
                                     forall j :: 0 <= j < i ==> form[j].0 != name
  {
    if form == [] then None
    else if form[0].0 == name then Some(form[0].1)
    else
      var r := FormValue(form[1..], name);
      assert forall i :: 1 <= i < |form| ==> form[i] == form[1..][i - 1];
      r
  }

  /** The field names of a form, in order. */
  function FieldNames(form: Form): (names: seq<string>)
    ensures |names| == |form|
    ensures forall i :: 0 <= i < |form| ==> names[i] == form[i].0
  {
    if form == [] then [] else [form[0].0] + FieldNames(form[1..])
  }

  /** The form of the client-credentials grant that `getKeycloakAdminToken` posts. */
  function ClientCredentialsForm(client: BackendClient): Form
  {
    [("client_id", client.clientId), ("client_secret", client.clientSecret), ("grant_type", "client_credentials")]
  }

  /** `getKeycloakAdminToken` builds its form by three successive appends to an empty `URLSearchParams`. */
  method AdminTokenForm(client: BackendClient) returns (params: FormParams)
    ensures fresh(params)
    ensures params.entries == ClientCredentialsForm(client)
  {
    params := new FormParams();
    params.Append("client_id", client.clientId);
    params.Append("client_secret", client.clientSecret);
    params.Append("grant_type", "client_credentials");
  }

  /**
   * The grant form has exactly the three fields `client_id`, `client_secret`
   * and `grant_type`, in that order, each once; reading any of them back gives
   * the backend client's credentials and the grant type; any other name is absent.
   */
  lemma ClientCredentialsFields(client: BackendClient, other: string)
    requires other != "client_id" && other != "client_secret" && other != "grant_type"
    ensures FieldNames(ClientCredentialsForm(client)) == ["client_id", "client_secret", "grant_type"]
    ensures FormValue(ClientCredentialsForm(client), "client_id") == Some(client.clientId)
    ensures FormValue(ClientCredentialsForm(client), "client_secret") == Some(client.clientSecret)
    ensures FormValue(ClientCredentialsForm(client), "grant_type") == Some("client_credentials")
    ensures FormValue(ClientCredentialsForm(client), other).None?
  {
    var form := ClientCredentialsForm(client);
    assert form[0].0 == "client_id" && form[1].0 == "client_secret" && form[2].0 == "grant_type";
    assert "client_secret"[7] != "client_id"[7];
    assert "grant_type"[0] != "client_id"[0] && "grant_type"[0] != "client_secret"[0];
  }

  /** One of the user's federated-identity records, as the admin API lists them. */
  datatype FederatedIdentity = FederatedIdentity(identityProvider: string, userId: string, userName: string, token: Option<string>)

  const Google := "google"

  /** `response.data.find((identity) => identity.identityProvider === "google")`. */
  function FindGoogleIdentity(records: seq<FederatedIdentity>): (r: Option<FederatedIdentity>)
    ensures r.None? <==> forall i :: 0 <= i < |records| ==> records[i].identityProvider != Google
    ensures r.Some? ==> exists i :: 0 <= i < |records| && records[i] == r.value && r.value.identityProvider == Google &&
                                     forall j :: 0 <= j < i ==> records[j].identityProvider != Google
  {
    if records == [] then None
    else if records[0].identityProvider == Google then Some(records[0])
    else
      var r := FindGoogleIdentity(records[1..]);
      assert forall i :: 1 <= i < |records| ==> records[i] == records[1..][i - 1];
      r
  }

  /** Records of other providers placed before the list do not change the selection. */
  lemma {:induction false} OtherProvidersAreSkipped(others: seq<FederatedIdentity>, records: seq<FederatedIdentity>)
    requires forall i :: 0 <= i < |others| ==> others[i].identityProvider != Google
    ensures FindGoogleIdentity(others + records) == FindGoogleIdentity(records)
  {
    if others != [] {
      assert (others + records)[1..] == others[1..] + records;
      OtherProvidersAreSkipped(others[1..], records);
    } else {
      assert others + records == records;
    }
  }
}
