/** Network and auth option assembly of the CLI utilities package:
    `createRequestOptions`, `createNPMRequestArgs` and `buildAuthParams`.

    `fs.readFileSync` is the `FileReader` parameter, `loadConfig()` is the
    `disk` store, `environments.resolve` is the `EnvResolver` parameter and
    `locations.axwayHome` is the `axwayHome` string. */
module CliUtils {
  import opened Wrappers
  import opened Js
  import Config

  /** The first argument of the option builders: omitted, a Config instance,
      a plain object, or some other value (null, boolean, number, string). */
  datatype OptsArg =
    | Omitted
    | ConfigInstance(store: Config.Store)
    | Object(fields: Js.Object)
    | Primitive(v: Value)

  /** The `config` argument of `createRequestOptions`: falsy, a Config
      instance, or a truthy value that is not a Config instance. */
  datatype ConfigArg = NoConfig | AConfig(store: Config.Store) | NotAConfig

  /** The config a call reads: the Config instance it was given, else the one
      loaded from disk. */
  function StoreOf(config: ConfigArg, disk: Config.Store): Config.Store {
    if config.AConfig? then config.store else disk
  }

  datatype Error = TypeError(msg: string) | Error(msg: string) | ReadFailed(path: Value)

  /** `fs.readFileSync(path)`: the file's content, or None when it throws. */
  type FileReader = Value -> Option<string>

  /** The five request options that may come from the `network.*` settings,
      the config key each is loaded from, in loading order. `proxy` has three. */
  const Loads: seq<(string, string)> := [
    ("network.caFile", "ca"),
    ("network.certFile", "cert"),
    ("network.keyFile", "key"),
    ("network.proxy", "proxy"),
    ("network.httpsProxy", "proxy"),
    ("network.httpProxy", "proxy"),
    ("network.strictSSL", "strictSSL")
  ]

  const Dests: set<string> := {"ca", "cert", "key", "proxy", "strictSSL"}

  const ObjectExpected: string := "Expected options to be an object"
  const ConfigExpected: string := "Expected config to be an AMPLIFY Config instance"

  /** One `load(src, dest)` call: a set option is kept, an unset one is taken
      from the config when the config has it (a file's content for the TLS
      options, the value for `proxy`, its truthiness for `strictSSL`). */
  function Load(opts: Js.Object, store: Config.Store, src: string, dest: string,
                readFile: FileReader): Result<Js.Object, Error>
  {
    if Prop(opts, dest) != Undefined then Ok(opts)
    else
      var v := Config.Get(store, src);
      if v == Undefined then Ok(opts)
      else if dest == "proxy" then Ok(opts[dest := v])
      else if dest == "strictSSL" then Ok(opts[dest := Bool(Truthy(v))])
      else
        match readFile(v)
        case Some(content) => Ok(opts[dest := Buffer(content)])
        case None => Err(ReadFailed(v))
  }

  function LoadAll(opts: Js.Object, store: Config.Store, loads: seq<(string, string)>,
                   readFile: FileReader): Result<Js.Object, Error>
    decreases |loads|
  {
    if loads == [] then Ok(opts)
    else
      var next :- Load(opts, store, loads[0].0, loads[0].1, readFile);
      LoadAll(next, store, loads[1..], readFile)
  }

  /** The options object the loads start from and the config they read, or
      the TypeError the argument checks throw. */
  function Start(opts: OptsArg, config: ConfigArg, disk: Config.Store): Result<(Js.Object, Config.Store), Error> {
    var (fields, cfg) :=
      match opts
      case ConfigInstance(s) => (map[], AConfig(s))
      case Object(f) => (f, config)
      case _ => (map[], config);
    if opts.Primitive? && opts.v != Null && !Truthy(opts.v) && opts.v != Undefined then
      Err(TypeError(ObjectExpected))
    else if cfg.NotAConfig? then
      Err(TypeError(ConfigExpected))
    else
      Ok((fields, StoreOf(cfg, disk)))
  }

  /** `createRequestOptions(opts, config)`. */
  function CreateRequestOptions(opts: OptsArg, config: ConfigArg, disk: Config.Store,
                                readFile: FileReader): Result<Js.Object, Error>
  {
    var (fields, store) :- Start(opts, config, disk);
    LoadAll(fields, store, Loads, readFile)
  }

  /** The first value among `vs` that is not `undefined`. */
  function FirstDefined(vs: seq<Value>): Value
    decreases |vs|
  {
    if vs == [] then Undefined
    else if vs[0] != Undefined then vs[0]
    else FirstDefined(vs[1..])
  }

  /** `createNPMRequestArgs(opts, config)`: flag/value pairs for `npm`. */
  function CreateNpmRequestArgs(opts: OptsArg, config: ConfigArg, disk: Config.Store,
                                readFile: FileReader): Result<seq<Value>, Error>
  {
    var o :- CreateRequestOptions(opts, config, disk, readFile);
    Ok(NpmArgs(o))
  }

  /** A flag and its value when `present`, nothing otherwise. */
  function FlagPair(present: bool, flag: string, v: Value): seq<Value> {
    if present then [Str(flag), v] else []
  }

  function NpmArgs(o: Js.Object): seq<Value> {
    var ca := Prop(o, "ca");
    var cert := Prop(o, "cert");
    var proxy := Prop(o, "proxy");
    var key := Prop(o, "key");
    FlagPair(Truthy(ca), "--ca", Str(ToStr(ca)))
    + (FlagPair(Truthy(cert), "--cert", Str(ToStr(cert)))
       + (FlagPair(Truthy(proxy), "--https-proxy", proxy)
          + (FlagPair(Truthy(key), "--key", Str(ToStr(key)))
             + FlagPair(true, "--strict-ssl", Str(if Prop(o, "strictSSL") != Bool(false) then "true" else "false")))))
  }

  /** The environment `environments.resolve` returns. */
  datatype Env = Env(name: string, clientId: Value, realm: Value)

  type EnvResolver = Value -> Env

  /** The auth parameters and the request options nested under them. */
  datatype AuthParams = AuthParams(params: Js.Object, requestOptions: Js.Object)

  /** The properties `buildAuthParams` fills, with their defaults, in order. */
  function AuthProps(env: Env, axwayHome: string): seq<(string, Value)> {
    [ ("baseUrl", Undefined),
      ("clientId", env.clientId),
      ("clientSecret", Undefined),
      ("env", Str(env.name)),
      ("interactiveLoginTimeout", Undefined),
      ("homeDir", Str(axwayHome)),
      ("password", Undefined),
      ("platformUrl", Undefined),
      ("realm", env.realm),
      ("secretFile", Undefined),
      ("serverHost", Undefined),
      ("serverPort", Undefined),
      ("serviceAccount", Undefined),
      ("tokenRefreshThreshold", Undefined),
      ("tokenStore", Undefined),
      ("tokenStoreDir", Str(axwayHome)),
      ("tokenStoreType", Undefined),
      ("username", Undefined) ]
  }

  /** Fills the listed properties in order: each is the caller's option when
      truthy, else the config's `auth.<prop>` when defined, else its default. */
  function Fill(params: Js.Object, props: seq<(string, Value)>, opts: Js.Object,
                store: Config.Store): Js.Object
    decreases |props|
  {
    if props == [] then params
    else
      var p := props[0].0;
      var v := Or(Prop(opts, p), Config.GetOr(store, "auth." + p, props[0].1));
      Fill(params[p := v], props[1..], opts, store)
  }

  /** `buildAuthParams(opts, config)`. A Config instance passed as `opts` has
      none of the listed properties of its own; a `Buffer` is an object, so it
      passes the type check and contributes no listed property either. A
      truthy `config` that is not a Config instance is an error. */
  function BuildAuthParams(opts: OptsArg, config: ConfigArg, disk: Config.Store,
                           resolveEnv: EnvResolver, axwayHome: string,
                           readFile: FileReader): Result<AuthParams, Error>
  {
    if opts.Primitive? && opts.v != Undefined && !opts.v.Buffer? then Err(Error(ObjectExpected))
    else if config.NotAConfig? then Err(TypeError(ConfigExpected))
    else
      var store := StoreOf(config, disk);
      var fields := if opts.Object? then opts.fields else map[];
      var env := resolveEnv(Or(Prop(fields, "env"), Config.Get(store, "env")));
      var params := Fill(map[], AuthProps(env, axwayHome), fields, store);
      var passed := if opts.ConfigInstance? then opts else Object(fields);
      var requestOptions :- CreateRequestOptions(passed, AConfig(store), disk, readFile);
      Ok(AuthParams(params, requestOptions))
  }
}
