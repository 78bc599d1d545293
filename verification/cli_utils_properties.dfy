/** Properties of the option builders: explicit options win over the config,
    the first defined proxy setting wins, `strictSSL` is the config value's
    truthiness, the npm arguments decode back to the options they came from,
    and every auth parameter follows option-then-config-then-default. */
module CliUtilsProperties {
  import opened Wrappers
  import opened Js
  import Config
  import opened CliUtils

  /** The config value one load consults for `dest`, if it targets `dest`. */
  function Pick(store: Config.Store, load: (string, string), dest: string): seq<Value> {
    if load.1 == dest then [Config.Get(store, load.0)] else []
  }

  /** The config values `loads` consults for `dest`, in loading order. */
  function Candidates(store: Config.Store, loads: seq<(string, string)>, dest: string): seq<Value>
    decreases |loads|
  {
    if loads == [] then [] else Pick(store, loads[0], dest) + Candidates(store, loads[1..], dest)
  }

  /** What a config value becomes under `dest`. */
  function Converted(dest: string, v: Value, readFile: FileReader): Value {
    if v == Undefined then Undefined
    else if dest == "proxy" then v
    else if dest == "strictSSL" then Bool(Truthy(v))
    else if readFile(v).Some? then Buffer(readFile(v).value)
    else Undefined
  }

  /** Loading never touches an option that is already set, nor one no load
      targets. */
  lemma {:induction false} LoadAllKeeps(opts: Js.Object, store: Config.Store, loads: seq<(string, string)>,
                                        readFile: FileReader, k: string)
    requires LoadAll(opts, store, loads, readFile).Ok?
    requires Prop(opts, k) != Undefined || forall i :: 0 <= i < |loads| ==> loads[i].1 != k
    ensures Prop(LoadAll(opts, store, loads, readFile).value, k) == Prop(opts, k)
    decreases |loads|
  {
    if loads != [] {
      var next := Load(opts, store, loads[0].0, loads[0].1, readFile).value;
      assert Prop(next, k) == Prop(opts, k);
      LoadAllKeeps(next, store, loads[1..], readFile, k);
    }
  }

  /** An option not set by the caller ends up as the first defined config
      value among its sources, converted; unset when all are undefined. */
  lemma {:induction false} LoadAllValue(opts: Js.Object, store: Config.Store, loads: seq<(string, string)>,
                                        readFile: FileReader, dest: string)
    requires LoadAll(opts, store, loads, readFile).Ok?
    requires Prop(opts, dest) == Undefined
    ensures Prop(LoadAll(opts, store, loads, readFile).value, dest)
            == Converted(dest, FirstDefined(Candidates(store, loads, dest)), readFile)
    decreases |loads|
  {
    if loads != [] {
      var (src, d) := loads[0];
      var next := Load(opts, store, src, d, readFile).value;
      var rest := Candidates(store, loads[1..], dest);
      if d == dest {
        assert Candidates(store, loads, dest) == [Config.Get(store, src)] + rest;
        if Config.Get(store, src) == Undefined {
          assert next == opts;
          LoadAllValue(next, store, loads[1..], readFile, dest);
        } else {
          assert Prop(next, dest) == Converted(dest, Config.Get(store, src), readFile);
          assert Prop(next, dest) != Undefined;
          LoadAllKeeps(next, store, loads[1..], readFile, dest);
        }
      } else {
        assert Candidates(store, loads, dest) == rest;
        assert Prop(next, dest) == Undefined;
        LoadAllValue(next, store, loads[1..], readFile, dest);
      }
    }
  }

  /** One step of `Candidates` from position `k` of `loads`. */
  lemma CandidatesAt(store: Config.Store, loads: seq<(string, string)>, dest: string, k: nat)
    requires k < |loads|
    ensures Candidates(store, loads[k..], dest) == Pick(store, loads[k], dest) + Candidates(store, loads[k + 1..], dest)
  {
    assert loads[k..][1..] == loads[k + 1..];
  }

  /** `Candidates` over the seven loads, one load at a time. */
  lemma {:induction false} LoadsUnrolled(store: Config.Store, dest: string)
    ensures Candidates(store, Loads, dest)
            == Pick(store, Loads[0], dest) + (Pick(store, Loads[1], dest) + (Pick(store, Loads[2], dest)
               + (Pick(store, Loads[3], dest) + (Pick(store, Loads[4], dest) + (Pick(store, Loads[5], dest)
               + Pick(store, Loads[6], dest))))))
  {
    var l := Loads;
    assert l[0..] == l;
    assert l[7..] == [];
    CandidatesAt(store, l, dest, 6);
    CandidatesAt(store, l, dest, 5);
    CandidatesAt(store, l, dest, 4);
    CandidatesAt(store, l, dest, 3);
    CandidatesAt(store, l, dest, 2);
    CandidatesAt(store, l, dest, 1);
    CandidatesAt(store, l, dest, 0);
  }

  lemma LoadsCandidates(store: Config.Store)
    ensures Candidates(store, Loads, "ca") == [Config.Get(store, "network.caFile")]
    ensures Candidates(store, Loads, "cert") == [Config.Get(store, "network.certFile")]
    ensures Candidates(store, Loads, "key") == [Config.Get(store, "network.keyFile")]
    ensures Candidates(store, Loads, "proxy")
            == [Config.Get(store, "network.proxy"), Config.Get(store, "network.httpsProxy"),
                Config.Get(store, "network.httpProxy")]
    ensures Candidates(store, Loads, "strictSSL") == [Config.Get(store, "network.strictSSL")]
  {
    LoadsUnrolled(store, "ca");
    LoadsUnrolled(store, "cert");
    LoadsUnrolled(store, "key");
    LoadsUnrolled(store, "proxy");
    LoadsUnrolled(store, "strictSSL");
  }

  lemma OnObject(fields: Js.Object, config: ConfigArg, disk: Config.Store, readFile: FileReader)
    requires !config.NotAConfig?
    ensures CreateRequestOptions(Object(fields), config, disk, readFile)
            == LoadAll(fields, StoreOf(config, disk), Loads, readFile)
  {
    assert Start(Object(fields), config, disk) == Ok((fields, StoreOf(config, disk)));
  }

  lemma LoadsTargetDests()
    ensures forall i :: 0 <= i < |Loads| ==> Loads[i].1 in Dests
  {
  }

  /** `createRequestOptions` on a plain object works on a copy: every option
      the caller set, and every property that is not a network option, comes
      out unchanged, and no key is lost. */
  lemma ExplicitOptionsWin(fields: Js.Object, config: ConfigArg, disk: Config.Store, readFile: FileReader)
    requires CreateRequestOptions(Object(fields), config, disk, readFile).Ok?
    ensures var o := CreateRequestOptions(Object(fields), config, disk, readFile).value;
            && fields.Keys <= o.Keys
            && (forall k :: Prop(fields, k) != Undefined ==> Prop(o, k) == Prop(fields, k))
            && (forall k :: k !in Dests ==> Prop(o, k) == Prop(fields, k))
  {
    var store := StoreOf(config, disk);
    OnObject(fields, config, disk, readFile);
    LoadsTargetDests();
    var o := LoadAll(fields, store, Loads, readFile).value;
    forall k | Prop(fields, k) != Undefined || k !in Dests
      ensures Prop(o, k) == Prop(fields, k)
    {
      LoadAllKeeps(fields, store, Loads, readFile, k);
    }
    forall k | k in fields
      ensures k in o
    {
      LoadAllKeepsKey(fields, store, Loads, readFile, k);
    }
  }

  lemma {:induction false} LoadAllKeepsKey(opts: Js.Object, store: Config.Store, loads: seq<(string, string)>,
                                           readFile: FileReader, k: string)
    requires LoadAll(opts, store, loads, readFile).Ok?
    requires k in opts
    ensures k in LoadAll(opts, store, loads, readFile).value
    decreases |loads|
  {
    if loads != [] {
      var next := Load(opts, store, loads[0].0, loads[0].1, readFile).value;
      LoadAllKeepsKey(next, store, loads[1..], readFile, k);
    }
  }

  /** An unset `proxy` becomes the first defined of `network.proxy`,
      `network.httpsProxy` and `network.httpProxy`, and stays unset when all
      three are undefined. */
  lemma ProxyFirstDefined(fields: Js.Object, config: ConfigArg, disk: Config.Store, readFile: FileReader)
    requires CreateRequestOptions(Object(fields), config, disk, readFile).Ok?
    requires Prop(fields, "proxy") == Undefined
    ensures var store := StoreOf(config, disk);
            Prop(CreateRequestOptions(Object(fields), config, disk, readFile).value, "proxy")
            == FirstDefined([Config.Get(store, "network.proxy"), Config.Get(store, "network.httpsProxy"),
                             Config.Get(store, "network.httpProxy")])
  {
    var store := StoreOf(config, disk);
    OnObject(fields, config, disk, readFile);
    LoadsCandidates(store);
    LoadAllValue(fields, store, Loads, readFile, "proxy");
  }

  /** An unset `strictSSL` becomes the truthiness of `network.strictSSL` as a
      boolean, and stays unset when that key is undefined. */
  lemma StrictSslFromConfig(fields: Js.Object, config: ConfigArg, disk: Config.Store, readFile: FileReader)
    requires CreateRequestOptions(Object(fields), config, disk, readFile).Ok?
    requires Prop(fields, "strictSSL") == Undefined
    ensures var v := Config.Get(StoreOf(config, disk), "network.strictSSL");
            Prop(CreateRequestOptions(Object(fields), config, disk, readFile).value, "strictSSL")
            == if v == Undefined then Undefined else Bool(Truthy(v))
  {
    var store := StoreOf(config, disk);
    OnObject(fields, config, disk, readFile);
    LoadsCandidates(store);
    LoadAllValue(fields, store, Loads, readFile, "strictSSL");
  }

  /** What the loading table says about a TLS option: loaded only from its
      own config key, and read from a file. */
  lemma TlsSource(store: Config.Store, dest: string, src: string)
    requires (dest, src) in {("ca", "network.caFile"), ("cert", "network.certFile"), ("key", "network.keyFile")}
    ensures dest != "proxy" && dest != "strictSSL"
    ensures (src, dest) in Loads
    ensures forall i :: 0 <= i < |Loads| && Loads[i].1 == dest ==> Loads[i].0 == src
    ensures Candidates(store, Loads, dest) == [Config.Get(store, src)]
  {
    LoadsCandidates(store);
    if dest == "ca" {
      assert Loads[0] == (src, dest);
    } else if dest == "cert" {
      assert Loads[1] == (src, dest);
    } else {
      assert Loads[2] == (src, dest);
    }
  }

  /** An unset `ca`, `cert` or `key` becomes the content of the file its
      config key names, and stays unset when that key is undefined. */
  lemma TlsFromFiles(fields: Js.Object, config: ConfigArg, disk: Config.Store, readFile: FileReader,
                     dest: string, src: string)
    requires (dest, src) in {("ca", "network.caFile"), ("cert", "network.certFile"), ("key", "network.keyFile")}
    requires CreateRequestOptions(Object(fields), config, disk, readFile).Ok?
    requires Prop(fields, dest) == Undefined
    ensures var path := Config.Get(StoreOf(config, disk), src);
            && (path != Undefined ==> readFile(path).Some?)
            && Prop(CreateRequestOptions(Object(fields), config, disk, readFile).value, dest)
               == if path == Undefined then Undefined else Buffer(readFile(path).value)
  {
    var store := StoreOf(config, disk);
    OnObject(fields, config, disk, readFile);
    TlsSource(store, dest, src);
    LoadAllValue(fields, store, Loads, readFile, dest);
    var path := Config.Get(store, src);
    assert FirstDefined([path]) == path;
    if path != Undefined {
      LoadAllReads(fields, store, Loads, readFile, src, dest);
    }
  }

  /** A load whose option is unset and whose config key is defined has read
      its file successfully if the whole chain succeeded. */
  lemma {:induction false} LoadAllReads(opts: Js.Object, store: Config.Store, loads: seq<(string, string)>,
                                        readFile: FileReader, src: string, dest: string)
    requires LoadAll(opts, store, loads, readFile).Ok?
    requires Prop(opts, dest) == Undefined
    requires dest != "proxy" && dest != "strictSSL"
    requires Config.Get(store, src) != Undefined
    requires (src, dest) in loads
    requires forall i :: 0 <= i < |loads| && loads[i].1 == dest ==> loads[i].0 == src
    ensures readFile(Config.Get(store, src)).Some?
    decreases |loads|
  {
    var next := Load(opts, store, loads[0].0, loads[0].1, readFile);
    if loads[0] != (src, dest) {
      assert loads[0].1 != dest;
      assert Prop(next.value, dest) == Undefined;
      assert (src, dest) in loads[1..];
      LoadAllReads(next.value, store, loads[1..], readFile, src, dest);
    }
  }

  /** The argument checks: a falsy non-null `opts` and a config that is not a
      Config instance are TypeErrors, unless `opts` is itself the Config. A
      file that cannot be read is the only other failure. */
  lemma RequestOptionsErrors(opts: OptsArg, config: ConfigArg, disk: Config.Store, readFile: FileReader)
    ensures opts.Primitive? && opts.v != Null && opts.v != Undefined && !Truthy(opts.v) ==>
              CreateRequestOptions(opts, config, disk, readFile) == Err(TypeError(ObjectExpected))
    ensures !opts.ConfigInstance? && !(opts.Primitive? && opts.v != Null && opts.v != Undefined && !Truthy(opts.v))
            && config.NotAConfig? ==>
              CreateRequestOptions(opts, config, disk, readFile) == Err(TypeError(ConfigExpected))
    ensures opts.ConfigInstance? ==> CreateRequestOptions(opts, config, disk, readFile)
                                     == CreateRequestOptions(Object(map[]), AConfig(opts.store), disk, readFile)
    ensures (forall v :: readFile(v).Some?) && !config.NotAConfig? && (opts.Object? || opts.Omitted?) ==>
              CreateRequestOptions(opts, config, disk, readFile).Ok?
    ensures CreateRequestOptions(opts, config, disk, readFile).Err? ==>
              CreateRequestOptions(opts, config, disk, readFile).error.TypeError?
              || CreateRequestOptions(opts, config, disk, readFile).error.ReadFailed?
  {
    if opts.ConfigInstance? {
      assert Start(opts, config, disk) == Ok((map[], opts.store));
      assert Start(Object(map[]), AConfig(opts.store), disk) == Ok((map[], opts.store));
    }
    var s := Start(opts, config, disk);
    if s.Ok? {
      var (fields, store) := s.value;
      LoadAllErrors(fields, store, Loads, readFile);
      if forall v :: readFile(v).Some? {
        LoadAllSucceeds(fields, store, Loads, readFile);
      }
    }
  }

  /** The only failure of the loads is a file that cannot be read. */
  lemma {:induction false} LoadAllErrors(opts: Js.Object, store: Config.Store, loads: seq<(string, string)>,
                                         readFile: FileReader)
    ensures LoadAll(opts, store, loads, readFile).Err? ==> LoadAll(opts, store, loads, readFile).error.ReadFailed?
    decreases |loads|
  {
    if loads != [] {
      var next := Load(opts, store, loads[0].0, loads[0].1, readFile);
      if next.Ok? {
        LoadAllErrors(next.value, store, loads[1..], readFile);
      }
    }
  }

  lemma {:induction false} LoadAllSucceeds(opts: Js.Object, store: Config.Store, loads: seq<(string, string)>,
                                           readFile: FileReader)
    requires forall v :: readFile(v).Some?
    ensures LoadAll(opts, store, loads, readFile).Ok?
    decreases |loads|
  {
    if loads != [] {
      var next := Load(opts, store, loads[0].0, loads[0].1, readFile);
      assert next.Ok?;
      LoadAllSucceeds(next.value, store, loads[1..], readFile);
    }
  }

  /** How `npm` reads its arguments back: the value after the first
      occurrence of a flag among the flag/value pairs. */
  function FlagValue(args: seq<Value>, flag: string): Option<Value>
    decreases |args|
  {
    if |args| < 2 then None
    else if args[0] == Str(flag) then Some(args[1])
    else FlagValue(args[2..], flag)
  }

  /** The flags of a flag/value list, in order. */
  function Flags(args: seq<Value>): seq<Value>
    decreases |args|
  {
    if |args| < 2 then [] else [args[0]] + Flags(args[2..])
  }

  lemma {:induction false} FlagValueAppend(a: seq<Value>, b: seq<Value>, flag: string)
    requires |a| % 2 == 0
    ensures FlagValue(a + b, flag) == if FlagValue(a, flag).Some? then FlagValue(a, flag) else FlagValue(b, flag)
    ensures Flags(a + b) == Flags(a) + Flags(b)
    decreases |a|
  {
    if |a| >= 2 {
      assert (a + b)[2..] == a[2..] + b;
      FlagValueAppend(a[2..], b, flag);
    } else {
      assert a == [];
      assert a + b == b;
    }
  }

  lemma FlagPairDecode(present: bool, flag: string, v: Value, f: string)
    ensures FlagValue(FlagPair(present, flag, v), f) == if present && f == flag then Some(v) else None
    ensures Flags(FlagPair(present, flag, v)) == if present then [Str(flag)] else []
    ensures |FlagPair(present, flag, v)| % 2 == 0
  {
  }

  function StrictSslText(o: Js.Object): string {
    if Prop(o, "strictSSL") == Bool(false) then "false" else "true"
  }

  /** The pieces `NpmArgs` concatenates, innermost last. */
  lemma NpmArgsPieces(o: Js.Object)
    ensures var ca := FlagPair(Truthy(Prop(o, "ca")), "--ca", Str(ToStr(Prop(o, "ca"))));
            var cert := FlagPair(Truthy(Prop(o, "cert")), "--cert", Str(ToStr(Prop(o, "cert"))));
            var proxy := FlagPair(Truthy(Prop(o, "proxy")), "--https-proxy", Prop(o, "proxy"));
            var key := FlagPair(Truthy(Prop(o, "key")), "--key", Str(ToStr(Prop(o, "key"))));
            var ssl := FlagPair(true, "--strict-ssl", Str(StrictSslText(o)));
            NpmArgs(o) == ca + (cert + (proxy + (key + ssl)))
  {
  }

  /** Decoding a flag from four optional pairs followed by the last pair. */
  lemma FlagValueOfPieces(o: Js.Object, f: string)
    ensures FlagValue(NpmArgs(o), f)
            == if f == "--ca" && Truthy(Prop(o, "ca")) then Some(Str(ToStr(Prop(o, "ca"))))
               else if f == "--cert" && Truthy(Prop(o, "cert")) then Some(Str(ToStr(Prop(o, "cert"))))
               else if f == "--https-proxy" && Truthy(Prop(o, "proxy")) then Some(Prop(o, "proxy"))
               else if f == "--key" && Truthy(Prop(o, "key")) then Some(Str(ToStr(Prop(o, "key"))))
               else if f == "--strict-ssl" then Some(Str(StrictSslText(o)))
               else None
    ensures Flags(NpmArgs(o))
            == (if Truthy(Prop(o, "ca")) then [Str("--ca")] else [])
               + ((if Truthy(Prop(o, "cert")) then [Str("--cert")] else [])
                  + ((if Truthy(Prop(o, "proxy")) then [Str("--https-proxy")] else [])
                     + ((if Truthy(Prop(o, "key")) then [Str("--key")] else [])
                        + [Str("--strict-ssl")])))
  {
    var ca := FlagPair(Truthy(Prop(o, "ca")), "--ca", Str(ToStr(Prop(o, "ca"))));
    var cert := FlagPair(Truthy(Prop(o, "cert")), "--cert", Str(ToStr(Prop(o, "cert"))));
    var proxy := FlagPair(Truthy(Prop(o, "proxy")), "--https-proxy", Prop(o, "proxy"));
    var key := FlagPair(Truthy(Prop(o, "key")), "--key", Str(ToStr(Prop(o, "key"))));
    var ssl := FlagPair(true, "--strict-ssl", Str(StrictSslText(o)));
    NpmArgsPieces(o);
    FlagPairDecode(Truthy(Prop(o, "ca")), "--ca", Str(ToStr(Prop(o, "ca"))), f);
    FlagPairDecode(Truthy(Prop(o, "cert")), "--cert", Str(ToStr(Prop(o, "cert"))), f);
    FlagPairDecode(Truthy(Prop(o, "proxy")), "--https-proxy", Prop(o, "proxy"), f);
    FlagPairDecode(Truthy(Prop(o, "key")), "--key", Str(ToStr(Prop(o, "key"))), f);
    FlagPairDecode(true, "--strict-ssl", Str(StrictSslText(o)), f);
    FlagValueAppend(key, ssl, f);
    FlagValueAppend(proxy, key + ssl, f);
    FlagValueAppend(cert, proxy + (key + ssl), f);
    FlagValueAppend(ca, cert + (proxy + (key + ssl)), f);
  }

  /** The last `n` elements of `a + b` are the last `n` of `b`. */
  lemma SuffixOfConcat<T>(a: seq<T>, b: seq<T>, n: nat)
    requires n <= |b|
    ensures (a + b)[|a + b| - n..] == b[|b| - n..]
  {
  }

  lemma NpmArgsEnd(o: Js.Object)
    ensures |NpmArgs(o)| >= 2
    ensures NpmArgs(o)[|NpmArgs(o)| - 2..] == [Str("--strict-ssl"), Str(StrictSslText(o))]
  {
    var ca := FlagPair(Truthy(Prop(o, "ca")), "--ca", Str(ToStr(Prop(o, "ca"))));
    var cert := FlagPair(Truthy(Prop(o, "cert")), "--cert", Str(ToStr(Prop(o, "cert"))));
    var proxy := FlagPair(Truthy(Prop(o, "proxy")), "--https-proxy", Prop(o, "proxy"));
    var key := FlagPair(Truthy(Prop(o, "key")), "--key", Str(ToStr(Prop(o, "key"))));
    var ssl := FlagPair(true, "--strict-ssl", Str(StrictSslText(o)));
    NpmArgsPieces(o);
    assert ssl[|ssl| - 2..] == ssl;
    SuffixOfConcat(key, ssl, 2);
    SuffixOfConcat(proxy, key + ssl, 2);
    SuffixOfConcat(cert, proxy + (key + ssl), 2);
    SuffixOfConcat(ca, cert + (proxy + (key + ssl)), 2);
  }

  /** The npm arguments decode back to the request options: each of `--ca`,
      `--cert`, `--https-proxy` and `--key` is present exactly when its option
      is truthy and carries that option; `--strict-ssl` is always present and
      reads "false" only when `strictSSL` is the boolean false. The flags come
      in that fixed order and the list ends with the `--strict-ssl` pair. */
  lemma NpmArgsDecode(o: Js.Object)
    ensures FlagValue(NpmArgs(o), "--ca")
            == if Truthy(Prop(o, "ca")) then Some(Str(ToStr(Prop(o, "ca")))) else None
    ensures FlagValue(NpmArgs(o), "--cert")
            == if Truthy(Prop(o, "cert")) then Some(Str(ToStr(Prop(o, "cert")))) else None
    ensures FlagValue(NpmArgs(o), "--https-proxy")
            == if Truthy(Prop(o, "proxy")) then Some(Prop(o, "proxy")) else None
    ensures FlagValue(NpmArgs(o), "--key")
            == if Truthy(Prop(o, "key")) then Some(Str(ToStr(Prop(o, "key")))) else None
    ensures FlagValue(NpmArgs(o), "--strict-ssl") == Some(Str(StrictSslText(o)))
    ensures Flags(NpmArgs(o))
            == (if Truthy(Prop(o, "ca")) then [Str("--ca")] else [])
               + ((if Truthy(Prop(o, "cert")) then [Str("--cert")] else [])
                  + ((if Truthy(Prop(o, "proxy")) then [Str("--https-proxy")] else [])
                     + ((if Truthy(Prop(o, "key")) then [Str("--key")] else [])
                        + [Str("--strict-ssl")])))
    ensures |NpmArgs(o)| >= 2
    ensures NpmArgs(o)[|NpmArgs(o)| - 2..] == [Str("--strict-ssl"), Str(StrictSslText(o))]
  {
    FlagValueOfPieces(o, "--ca");
    FlagValueOfPieces(o, "--cert");
    FlagValueOfPieces(o, "--https-proxy");
    FlagValueOfPieces(o, "--key");
    FlagValueOfPieces(o, "--strict-ssl");
    NpmArgsEnd(o);
  }

  /** The npm argument list is built from the resolved request options. */
  lemma NpmArgsFromOptions(opts: OptsArg, config: ConfigArg, disk: Config.Store, readFile: FileReader)
    ensures CreateNpmRequestArgs(opts, config, disk, readFile).Ok?
            <==> CreateRequestOptions(opts, config, disk, readFile).Ok?
    ensures CreateNpmRequestArgs(opts, config, disk, readFile).Ok? ==>
              CreateNpmRequestArgs(opts, config, disk, readFile).value
              == NpmArgs(CreateRequestOptions(opts, config, disk, readFile).value)
  {
  }

  /** End to end, from a plain options object and the config: `--https-proxy`
      carries the caller's `proxy` when set, else the first defined proxy
      setting, and appears only when that value is truthy. */
  lemma NpmProxyFromConfig(fields: Js.Object, config: ConfigArg, disk: Config.Store, readFile: FileReader)
    requires CreateNpmRequestArgs(Object(fields), config, disk, readFile).Ok?
    ensures var args := CreateNpmRequestArgs(Object(fields), config, disk, readFile).value;
            var store := StoreOf(config, disk);
            var px := if Prop(fields, "proxy") != Undefined then Prop(fields, "proxy")
                      else FirstDefined([Config.Get(store, "network.proxy"), Config.Get(store, "network.httpsProxy"),
                                         Config.Get(store, "network.httpProxy")]);
            FlagValue(args, "--https-proxy") == if Truthy(px) then Some(px) else None
  {
    NpmArgsFromOptions(Object(fields), config, disk, readFile);
    assert !config.NotAConfig?;
    var o := CreateRequestOptions(Object(fields), config, disk, readFile).value;
    NpmArgsDecode(o);
    ExplicitOptionsWin(fields, config, disk, readFile);
    if Prop(fields, "proxy") == Undefined {
      ProxyFirstDefined(fields, config, disk, readFile);
    }
  }

  /** End to end, from a plain options object and the config: `--strict-ssl`
      reads "false" exactly when the caller's `strictSSL` is false, or, when
      the caller left it unset, when `network.strictSSL` is defined and
      falsy; otherwise it reads "true". */
  lemma NpmStrictSslFromConfig(fields: Js.Object, config: ConfigArg, disk: Config.Store, readFile: FileReader)
    requires CreateNpmRequestArgs(Object(fields), config, disk, readFile).Ok?
    ensures var args := CreateNpmRequestArgs(Object(fields), config, disk, readFile).value;
            var ssl := Config.Get(StoreOf(config, disk), "network.strictSSL");
            var off := if Prop(fields, "strictSSL") != Undefined then Prop(fields, "strictSSL") == Bool(false)
                       else ssl != Undefined && !Truthy(ssl);
            FlagValue(args, "--strict-ssl") == Some(Str(if off then "false" else "true"))
  {
    NpmArgsFromOptions(Object(fields), config, disk, readFile);
    assert !config.NotAConfig?;
    var o := CreateRequestOptions(Object(fields), config, disk, readFile).value;
    NpmArgsDecode(o);
    ExplicitOptionsWin(fields, config, disk, readFile);
    if Prop(fields, "strictSSL") == Undefined {
      StrictSslFromConfig(fields, config, disk, readFile);
    }
  }

  /** The listed property names are distinct. */
  lemma AuthPropsDistinct(env: Env, axwayHome: string)
    ensures var props := AuthProps(env, axwayHome);
            forall i, j :: 0 <= i < j < |props| ==> props[i].0 != props[j].0
  {
    var props := AuthProps(env, axwayHome);
    forall i, j | 0 <= i < j < |props|
      ensures props[i].0 != props[j].0
    {
      var a := props[i].0;
      var b := props[j].0;
      assert |a| != |b| || a[0] != b[0] || a[|a| - 1] != b[|b| - 1] || (|a| > 6 && a[6] != b[6]);
    }
  }

  /** The property names of a property list. */
  function NameSet(props: seq<(string, Value)>): (names: set<string>)
    ensures forall k :: k in names <==> exists i :: 0 <= i < |props| && props[i].0 == k
    decreases |props|
  {
    if props == [] then {}
    else
      var rest := NameSet(props[1..]);
      assert forall k :: k in rest <==> exists i :: 1 <= i < |props| && props[i].0 == k by {
        forall k ensures k in rest <==> exists i :: 1 <= i < |props| && props[i].0 == k {
          if k in rest {
            var j :| 0 <= j < |props[1..]| && props[1..][j].0 == k;
            assert props[j + 1].0 == k;
          }
          if exists i :: 1 <= i < |props| && props[i].0 == k {
            var i :| 1 <= i < |props| && props[i].0 == k;
            assert props[1..][i - 1].0 == k;
          }
        }
      }
      {props[0].0} + rest
  }

  lemma {:induction false} FillValues(params: Js.Object, props: seq<(string, Value)>, opts: Js.Object,
                                      store: Config.Store)
    requires forall i, j :: 0 <= i < j < |props| ==> props[i].0 != props[j].0
    ensures var r := Fill(params, props, opts, store);
            && r.Keys == params.Keys + NameSet(props)
            && (forall k :: k in params && k !in NameSet(props) ==> r[k] == params[k])
            && (forall i :: 0 <= i < |props| ==>
                  r[props[i].0] == Or(Prop(opts, props[i].0), Config.GetOr(store, "auth." + props[i].0, props[i].1)))
    decreases |props|
  {
    if props != [] {
      var p := props[0].0;
      var next := params[p := Or(Prop(opts, p), Config.GetOr(store, "auth." + p, props[0].1))];
      FillValues(next, props[1..], opts, store);
      var r := Fill(params, props, opts, store);
      assert r == Fill(next, props[1..], opts, store);
      assert p !in NameSet(props[1..]);
      forall i | 0 <= i < |props|
        ensures r[props[i].0] == Or(Prop(opts, props[i].0), Config.GetOr(store, "auth." + props[i].0, props[i].1))
      {
        if i > 0 {
          assert props[1..][i - 1] == props[i];
        }
      }
    }
  }

  /** `buildAuthParams`: every listed property is the caller's option when
      truthy, else the `auth.<prop>` config value when defined, else the
      property's default; no other property is produced. A null or primitive
      `opts` throws, although `createRequestOptions` accepts null. */
  lemma AuthParamPrecedence(fields: Js.Object, config: ConfigArg, disk: Config.Store,
                            resolveEnv: EnvResolver, axwayHome: string, readFile: FileReader)
    requires BuildAuthParams(Object(fields), config, disk, resolveEnv, axwayHome, readFile).Ok?
    ensures var store := StoreOf(config, disk);
            var env := resolveEnv(Or(Prop(fields, "env"), Config.Get(store, "env")));
            var props := AuthProps(env, axwayHome);
            var params := BuildAuthParams(Object(fields), config, disk, resolveEnv, axwayHome, readFile).value.params;
            && params.Keys == NameSet(props)
            && forall i :: 0 <= i < |props| ==>
                 var p := props[i].0;
                 && (Truthy(Prop(fields, p)) ==> params[p] == Prop(fields, p))
                 && (!Truthy(Prop(fields, p)) && Config.Get(store, "auth." + p) != Undefined
                     ==> params[p] == Config.Get(store, "auth." + p))
                 && (!Truthy(Prop(fields, p)) && Config.Get(store, "auth." + p) == Undefined
                     ==> params[p] == props[i].1)
    ensures BuildAuthParams(Object(fields), config, disk, resolveEnv, axwayHome, readFile).value.requestOptions
            == CreateRequestOptions(Object(fields), AConfig(StoreOf(config, disk)), disk, readFile).value
  {
    var store := StoreOf(config, disk);
    var env := resolveEnv(Or(Prop(fields, "env"), Config.Get(store, "env")));
    AuthPropsDistinct(env, axwayHome);
    FillValues(map[], AuthProps(env, axwayHome), fields, store);
  }

  /** Null, a boolean, a number or a string as `opts` throws, although
      `createRequestOptions` accepts null. */
  lemma AuthParamsRejectNonObjects(v: Value, config: ConfigArg, disk: Config.Store,
                                   resolveEnv: EnvResolver, axwayHome: string, readFile: FileReader)
    requires v != Undefined && !v.Buffer?
    ensures BuildAuthParams(Primitive(v), config, disk, resolveEnv, axwayHome, readFile) == Err(Error(ObjectExpected))
    ensures v == Null ==> CreateRequestOptions(Primitive(v), NoConfig, disk, readFile).Ok?
                          || CreateRequestOptions(Primitive(v), NoConfig, disk, readFile).error.ReadFailed?
  {
    if v == Null {
      assert Start(Primitive(v), NoConfig, disk) == Ok((map[], disk));
      LoadAllErrors(map[], disk, Loads, readFile);
    }
  }

  /** With acceptable `opts`, a truthy `config` that is not a Config instance
      is a TypeError before any parameter is produced. */
  lemma AuthParamsRejectForeignConfig(opts: OptsArg, disk: Config.Store, resolveEnv: EnvResolver,
                                      axwayHome: string, readFile: FileReader)
    requires !(opts.Primitive? && opts.v != Undefined && !opts.v.Buffer?)
    ensures BuildAuthParams(opts, NotAConfig, disk, resolveEnv, axwayHome, readFile)
            == Err(TypeError(ConfigExpected))
  {
  }
}
