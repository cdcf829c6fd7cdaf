/** The entities of the repository whose eager loading is modelled. */
module Catalog {
  import opened Sql
  import opened Schema

  const TENANT: Entity :=
    EntityDecl("tenant", None, Some("domain"), ["name", "slug", "status", "description", "created_at", "updated_at"])

  const SERVICE: Entity :=
    EntityDecl(
      "service",
      Some(OneEdge("tenant", "tenant_id", false)),
      Some("deployment"),
      ["project_id", "name", "protocol", "status", "created_at", "updated_at"])

  const DEPLOYMENT: Entity :=
    EntityDecl(
      "deployment",
      Some(OneEdge("service", "service_id", false)),
      Some("deployment_version"),
      ["name", "status", "strategy", "created_at", "updated_at"])

  /** Part of a column list; no attribute is called like the primary key. */
  type Attributes = names: seq<string> | "id" !in names witness []

  const VERSION_SPEC: Attributes := ["project_id", "version", "image", "weight", "status", "replicas", "port"]
  const VERSION_SETTINGS: Attributes :=
    ["env", "resources", "health_path", "node_selector", "mounts", "created_at", "updated_at"]

  const DEPLOYMENT_VERSION: Entity :=
    EntityDecl(
      "deployment_version",
      Some(OneEdge("deployment", "deployment_id", false)),
      None,
      VERSION_SPEC + VERSION_SETTINGS)

  const DOMAIN: Entity :=
    EntityDecl(
      "domain",
      Some(OneEdge("tenant", "tenant_id", false)),
      Some("certificate"),
      ["hostname", "service_id", "status", "verified_at", "tls_mode", "certificate_status", "created_at", "updated_at"])

  const CERTIFICATE_FILE: Attributes :=
    ["hostname", "source", "status", "certificate_pem", "private_key_encrypted", "issuer", "serial_number"]
  const CERTIFICATE_TERM: Attributes := ["issued_at", "expires_at", "last_renewed_at", "last_error"]
  const CERTIFICATE_RENEWAL: Attributes :=
    ["provider_meta", "renew_attempts", "next_renew_at", "last_renew_error", "created_at", "updated_at"]

  const CERTIFICATE: Entity :=
    EntityDecl(
      "certificate",
      Some(OneEdge("domain", "domain_id", true)),
      None,
      CERTIFICATE_FILE + CERTIFICATE_TERM + CERTIFICATE_RENEWAL)

  /** Every edge and its inverse meet: a version's back edge leads to its deployment, and so on. */
  lemma EdgesMeet()
    ensures OneFits(DEPLOYMENT, SERVICE) && ManyFits(SERVICE, DEPLOYMENT)
    ensures OneFits(DEPLOYMENT_VERSION, DEPLOYMENT) && ManyFits(DEPLOYMENT, DEPLOYMENT_VERSION)
    ensures OneFits(SERVICE, TENANT)
    ensures OneFits(DOMAIN, TENANT) && ManyFits(TENANT, DOMAIN)
    ensures OneFits(CERTIFICATE, DOMAIN) && ManyFits(DOMAIN, CERTIFICATE)
  {
  }
}
