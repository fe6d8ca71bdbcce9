/**
 * API URL composition: an optional base URL, taken from the
 * `NEXT_PUBLIC_API_BASE_URL` environment variable, is put in front of an endpoint
 * path when it is non-empty. The environment is a parameter of the model.
 */
module ApiConfig {
  import opened Wrappers
  import Text

  const DocumentsEndpoint: string := "/api/documents"
  const EmployeesEndpoint: string := "/api/employees"

  /** `process.env.NEXT_PUBLIC_API_BASE_URL || ''`. */
  function BaseUrl(env: Option<string>): string {
    env.GetOr("")
  }

  /** `API_CONFIG.getUrl(endpoint)`: the base URL, if any, followed by the endpoint. */
  function GetUrl(baseUrl: string, endpoint: string): (r: string)
    ensures baseUrl == "" ==> r == endpoint
    ensures baseUrl != "" ==> Text.StartsWith(r, baseUrl) && |r| == |baseUrl| + |endpoint|
    ensures |r| >= |endpoint| && r[|r| - |endpoint|..] == endpoint
  {
    if baseUrl != "" then baseUrl + endpoint else endpoint
  }

  /** `createApiUrl(endpoint)`, a plain wrapper around `getUrl`. */
  function CreateApiUrl(baseUrl: string, endpoint: string): (r: string)
    ensures r == GetUrl(baseUrl, endpoint)
  {
    GetUrl(baseUrl, endpoint)
  }

  datatype ApiUrls = ApiUrls(documents: string, employees: string)

  /** `API_URLS`: the documents and employees endpoints behind the configured base URL. */
  function Urls(env: Option<string>): (r: ApiUrls)
    ensures r.documents == GetUrl(BaseUrl(env), DocumentsEndpoint)
    ensures r.employees == GetUrl(BaseUrl(env), EmployeesEndpoint)
  {
    var base := BaseUrl(env);
    ApiUrls(CreateApiUrl(base, DocumentsEndpoint), CreateApiUrl(base, EmployeesEndpoint))
  }

  /** With no base URL configured the endpoints are used as relative paths. */
  lemma RelativeWithoutBase(env: Option<string>)
    requires env.None? || env == Some("")
    ensures Urls(env) == ApiUrls("/api/documents", "/api/employees")
  {
  }

  /** A configured base URL is the exact prefix and the endpoint the exact suffix. */
  lemma BaseThenEndpoint(env: Option<string>, endpoint: string)
    requires env.Some? && env.value != ""
    ensures GetUrl(BaseUrl(env), endpoint) == env.value + endpoint
    ensures Text.StartsWith(GetUrl(BaseUrl(env), endpoint), env.value)
  {
  }
}
