/** The package registry client: base-URL choice, the search URL, the
    metadata URL and the re-keying of a metadata document's versions.

    `encodeURIComponent` is the `encode` parameter, `environments[env]
    .registry.url` is the `Environments` table, and the HTTP request and the
    JSON parsing of its body are the `fetch` parameter. */
module Registry {
  import opened Wrappers
  import opened Js

  datatype Client = Client(url: string)

  /** The registry URL of every environment the CLI knows, by name. */
  type Environments = map<string, string>

  const Prod: string := "prod"
  const SearchPath: string := "/api/packages/v1/-/search"
  const PackagesPath: string := "/api/packages/v1/"

  /** `new Registry({ env, url })`. An explicit URL wins, then a known
      environment's URL, then the production URL. "" stands for an absent
      option. */
  function New(env: string, url: string, envs: Environments): (r: Client)
    requires Prod in envs
    ensures url != "" ==> r.url == url
    ensures url == "" && env != "" && env in envs ==> r.url == envs[env]
    ensures url == "" && (env == "" || env !in envs) ==> r.url == envs[Prod]
  {
    Client(if url != "" then url else if env != "" && env in envs then envs[env] else envs[Prod])
  }

  /** The separator for the next query parameter of `url`. */
  function Sep(url: string): string {
    if '?' in url then "&" else "?"
  }

  /** One `name=value` query parameter, the value URI-encoded. */
  function Param(name: string, v: string, encode: string -> string): string {
    name + "=" + encode(v)
  }

  /** The URL `search({ text, repository, type })` requests. "" stands for an
      absent (or empty, hence falsy) option. */
  function SearchUrl(c: Client, text: string, repository: string, kind: string,
                     encode: string -> string): (url: string)
    ensures c.url + SearchPath <= url
  {
    var base := c.url + SearchPath;
    var u1 := if text != "" then base + "?" + Param("text", text, encode) else base;
    var u2 := if repository != "" then u1 + Sep(u1) + Param("repository", repository, encode) else u1;
    if kind != "" then u2 + Sep(u2) + Param("type", kind, encode) else u2
  }

  datatype Error = TypeError(msg: string) | Remote(reason: string)

  /** The URL `metadata({ name, version })` requests, or the TypeError for a
      name that is not a non-empty string. */
  function MetadataUrl(c: Client, name: Value, version: Value, encode: string -> string): (r: Result<string, Error>)
    ensures r.Err? <==> !(name.Str? && name.s != "")
    ensures r.Err? ==> r.error == TypeError("Expected name to be a valid string")
    ensures r.Ok? ==> c.url + PackagesPath + encode(name.s) <= r.value
    ensures r.Ok? ==> (|r.value| > |c.url + PackagesPath + encode(name.s)| <==> Truthy(version))
  {
    if !Truthy(name) || !name.Str? then Err(TypeError("Expected name to be a valid string"))
    else Ok(c.url + PackagesPath + encode(name.s) + (if Truthy(version) then "/" + ToStr(version) else ""))
  }

  /** One entry of a metadata document's `versions`: the version it
      describes and its other fields. */
  datatype Info = Info(version: string, fields: Js.Object)

  /** A parsed metadata response: `versions` as `Object.entries` lists it and
      `time`, each absent when the document has none. */
  datatype Response = Response(versions: Option<seq<(string, Info)>>, time: Option<Js.Object>)

  /** The document `metadata` returns. */
  datatype Document = Document(versions: Option<map<string, Info>>, time: Option<Js.Object>)

  function ToMap(entries: seq<(string, Info)>): map<string, Info>
    decreases |entries|
  {
    if entries == [] then map[]
    else ToMap(entries[..|entries| - 1])[entries[|entries| - 1].0 := entries[|entries| - 1].1]
  }

  /** The re-key loop over a snapshot of the entries, on `versions`: write the
      entry under its version, then delete its original key. */
  function Rekey(versions: map<string, Info>, snapshot: seq<(string, Info)>): map<string, Info>
    decreases |snapshot|
  {
    if snapshot == [] then versions
    else
      var (key, info) := snapshot[0];
      Rekey(versions[info.version := info] - {key}, snapshot[1..])
  }

  /** The same loop on `time`: copy the current time of the original key to the
      version, then delete the original key. */
  function RekeyTime(time: Js.Object, snapshot: seq<(string, Info)>): Js.Object
    decreases |snapshot|
  {
    if snapshot == [] then time
    else
      var (key, info) := snapshot[0];
      RekeyTime(time[info.version := Prop(time, key)] - {key}, snapshot[1..])
  }

  /** The post-processing of `metadata`: with `versions` present, each entry is
      re-keyed by its version in both `versions` and `time`; touching `time`
      when the document has none is a TypeError. */
  function Normalize(resp: Response): Result<Document, Error> {
    match resp.versions
    case None => Ok(Document(None, resp.time))
    case Some(entries) =>
      if entries == [] then Ok(Document(Some(map[]), resp.time))
      else if resp.time.None? then Err(TypeError("Cannot read property of undefined"))
      else Ok(Document(Some(Rekey(ToMap(entries), entries)), Some(RekeyTime(resp.time.value, entries))))
  }

  /** `metadata({ name, version })`. */
  function Metadata(c: Client, name: Value, version: Value, encode: string -> string,
                    fetch: string -> Result<Response, Error>): Result<Document, Error>
  {
    var url :- MetadataUrl(c, name, version, encode);
    var resp :- fetch(url);
    Normalize(resp)
  }
}
