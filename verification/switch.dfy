/** The `axway auth switch` command: choose the default account and, for a
    platform account, its organization, and remember both in the config.

    The session SDK, the prompt and the headless probe are outside the model:
    `sdk.auth.find` is a lookup by name in the listed accounts, the prompt is a
    `Chooser` function, `sdk.auth.switchOrg` is a `SwitchOrgFn` function and
    `isHeadless()` is a boolean. `localeCompare` is the abstract order `le`. */
module Switch {
  import opened Wrappers
  import opened Js
  import Config
  import Collation

  datatype Org = Org(id: string, guid: string, name: string)

  /** An authenticated account as the SDK reports it. `email` is `user.email`,
      with "" for a user without one. */
  datatype Account = Account(
    name: string,
    hash: string,
    isPlatform: bool,
    orgs: seq<Org>,
    org: Option<Org>,
    isDefault: bool,
    email: string)

  /** The command-line flags. "" stands for a flag that is absent or empty;
      the code treats both alike because both are falsy. */
  datatype Argv = Argv(account: string, org: string, json: bool)

  /** The select prompt the command shows: sorted account names and the index
      highlighted first (-1 for none). */
  datatype Prompt = Prompt(choices: seq<string>, initial: int)

  /** The prompt's answer; "" when it yields no account name. */
  type Chooser = Prompt -> string

  /** What `sdk.auth.switchOrg(account, orgId, { onOpenBrowser })` does:
      whether it invokes `onOpenBrowser` on its way, and then either the
      account it returns or the reason it fails remotely. In a headless
      environment `onOpenBrowser` throws, and the throw propagates before any
      remote result. */
  datatype SwitchReply = SwitchReply(opensBrowser: bool, result: Result<Account, string>)

  type SwitchOrgFn = (Account, Option<string>) -> SwitchReply

  /** Everything the command can throw. `UndefinedAccount` is the TypeError
      of `account.default = true` with no account; `UndefinedOrg` is the one
      of `account.org.guid` when the switched account has no org. */
  datatype Failure =
    | NoAccounts
    | AccountRequired
    | OrgRequired
    | AccountNotFound(requested: string, names: seq<string>)
    | UndefinedAccount
    | HeadlessBrowser
    | Remote(reason: string)
    | UndefinedOrg
  {
    function Text(): string {
      match this
      case NoAccounts => "No authenticated accounts found"
      case AccountRequired =>
        "Must specify --account when --json is set and there are multiple authenticated accounts"
      case OrgRequired => "Must specify --org when --json is set"
      case AccountNotFound(requested, _) => "Account \"" + requested + "\" not found"
      case UndefinedAccount => "Cannot set property 'default' of undefined"
      case HeadlessBrowser =>
        "Switching default account and organization requires a web browser and is unsupported in headless environments"
      case Remote(reason) => reason
      case UndefinedOrg => "Cannot read property 'guid' of undefined"
    }

    function Code(): string {
      if AccountNotFound? then "ERR_NOT_FOUND" else ""
    }
  }

  /** What the command prints last: the account as JSON, or one line. */
  datatype Message = Json(account: Account) | Line(text: string)

  /** The end of a run: the final account, the config as saved, whether the
      "launching browser" notice was printed, and the closing message; or the
      failure, the config as it stood when it was thrown, and whether the
      notice had been printed by then. */
  datatype Outcome =
    | Done(account: Account, config: Config.Store, notice: bool, message: Message)
    | Failed(failure: Failure, config: Config.Store, notice: bool)

  const DefaultAccountKey: string := "auth.defaultAccount"
  const DefaultOrgPrefix: string := "auth.defaultOrg."
  const SetPrefix: string := "Default account set to "

  function DefaultOrgKey(hash: string): string {
    DefaultOrgPrefix + hash
  }

  /** The per-account org key never collides with the default-account key. */
  lemma KeysDiffer(hash: string)
    ensures DefaultOrgKey(hash) != DefaultAccountKey
  {
    assert DefaultOrgKey(hash)[12] == 'O';
    assert DefaultAccountKey[12] == 'A';
  }

  function Names(accounts: seq<Account>): (names: seq<string>)
    ensures |names| == |accounts|
    ensures forall i :: 0 <= i < |accounts| ==> names[i] == accounts[i].name
  {
    seq(|accounts|, i requires 0 <= i < |accounts| => accounts[i].name)
  }

  /** The `details` of the not-found error: every account name, indented, one
      per line (the highlighting colour is not modelled). */
  function NameList(names: seq<string>): string
    decreases |names|
  {
    if names == [] then "" else "\n  " + names[0] + NameList(names[1..])
  }

  function Details(f: Failure): string {
    if f.AccountNotFound? then "Authenticated accounts:" + NameList(f.names) else ""
  }

  /** `sdk.auth.find(name)`: the first listed account with that name. */
  function Find(accounts: seq<Account>, name: string): (r: Option<Account>)
    ensures r.Some? ==> r.value in accounts && r.value.name == name
    ensures r.None? <==> forall i :: 0 <= i < |accounts| ==> accounts[i].name != name
    ensures r.Some? ==> exists i :: 0 <= i < |accounts| && accounts[i] == r.value
                                    && forall j :: 0 <= j < i ==> accounts[j].name != name
  {
    var i := FindIndex(accounts, (a: Account) => a.name == name);
    if i < 0 then None else Some(accounts[i])
  }

  /** The checks made before anything else, in source order. */
  function Guard(accounts: seq<Account>, argv: Argv): Option<Failure> {
    if |accounts| == 0 then Some(NoAccounts)
    else if |accounts| > 1 && argv.account == "" && argv.json then Some(AccountRequired)
    else if argv.org == "" && argv.json then Some(OrgRequired)
    else None
  }

  /** The command prompts only without `--account`, with several accounts and
      outside JSON mode. */
  predicate Prompts(accounts: seq<Account>, argv: Argv) {
    argv.account == "" && |accounts| > 1 && !argv.json
  }

  /** The prompt: account names sorted by collation, with the remembered default
      account highlighted when it is one of them. */
  function PromptFor(accounts: seq<Account>, cfg: Config.Store, le: (string, string) -> bool): (p: Prompt)
    ensures multiset(p.choices) == multiset(Names(accounts))
    ensures Collation.TotalPreorder(le) ==> Collation.Sorted(p.choices, le)
    ensures -1 <= p.initial < |p.choices|
    ensures p.initial >= 0 ==>
              && Str(p.choices[p.initial]) == Config.Get(cfg, DefaultAccountKey)
              && forall j :: 0 <= j < p.initial ==> Str(p.choices[j]) != Config.Get(cfg, DefaultAccountKey)
    ensures p.initial == -1 <==> Config.Get(cfg, DefaultAccountKey) !in (set n | n in Names(accounts) :: Str(n))
  {
    var names := Names(accounts);
    var choices := Collation.Sort(names, le);
    var remembered := Config.Get(cfg, DefaultAccountKey);
    Collation.SortPermutes(names, le);
    Collation.SortSortedWhenPreorder(names, le);
    assert forall n :: n in choices <==> n in names by {
      forall n ensures n in choices <==> n in names {
        assert n in multiset(choices) <==> n in multiset(names);
      }
    }
    Prompt(choices, FindIndex(choices, (n: string) => Str(n) == remembered))
  }

  /** The account the command settles on before persisting anything. */
  function ResolveAccount(accounts: seq<Account>, argv: Argv, cfg: Config.Store,
                          le: (string, string) -> bool, choose: Chooser): Result<Account, Failure>
  {
    if argv.account != "" then
      match Find(accounts, argv.account)
      case Some(a) => Ok(a)
      case None => Err(AccountNotFound(argv.account, Names(accounts)))
    else
      var accountName :=
        if Prompts(accounts, argv) then choose(PromptFor(accounts, cfg, le))
        else if |accounts| > 0 then accounts[0].name
        else "";
      if accountName == "" then Err(UndefinedAccount)
      else
        match Find(accounts, accountName)
        case Some(a) => Ok(a)
        case None => Err(UndefinedAccount)
  }

  /** Remembering the chosen account also forgets its remembered org. */
  function Persist(account: Account, cfg: Config.Store): (r: Config.Store)
    ensures Config.Get(r, DefaultAccountKey) == Str(account.name)
    ensures DefaultOrgKey(account.hash) !in r
    ensures forall k :: k in cfg && k != DefaultAccountKey && k != DefaultOrgKey(account.hash)
                        ==> k in r && r[k] == cfg[k]
    ensures r.Keys <= cfg.Keys + {DefaultAccountKey}
  {
    KeysDiffer(account.hash);
    Config.Delete(Config.Set(cfg, DefaultAccountKey, Str(account.name)), DefaultOrgKey(account.hash))
  }

  /** The org to look for: the `--org` flag, else, for an account with a hash,
      the org remembered under that hash (an empty string without a hash). */
  function OrgCandidate(argv: Argv, account: Account, cfg: Config.Store): Value {
    if argv.org != "" then Str(argv.org)
    else if account.hash == "" then Str("")
    else Config.Get(cfg, DefaultOrgKey(account.hash))
  }

  predicate Matches(o: Org, candidate: Value) {
    Str(o.guid) == candidate || Str(o.id) == candidate || Str(o.name) == candidate
  }

  /** The id of the first org whose guid, id or name is the candidate. */
  function MatchOrg(orgs: seq<Org>, candidate: Value): (r: Option<string>)
    ensures r.Some? ==>
              && Truthy(candidate)
              && exists i :: 0 <= i < |orgs| && Matches(orgs[i], candidate) && r.value == orgs[i].id
                          && forall j :: 0 <= j < i ==> !Matches(orgs[j], candidate)
    ensures r.None? <==> !Truthy(candidate) || forall i :: 0 <= i < |orgs| ==> !Matches(orgs[i], candidate)
  {
    if !Truthy(candidate) then None
    else
      var i := FindIndex(orgs, (o: Org) => Matches(o, candidate));
      if i < 0 then None else Some(orgs[i].id)
  }

  function Display(account: Account): string {
    if account.email != "" then account.email else account.name
  }

  /** The closing output: JSON, or a line naming the org when there is one. */
  function Output(account: Account, argv: Argv): (m: Message)
    ensures m.Json? <==> argv.json
    ensures m.Json? ==> m.account == account
    ensures m.Line? ==> SetPrefix + Display(account) <= m.text
    ensures m.Line? && account.isPlatform && account.org.Some? && account.org.value.name != ""
            ==> m.text == SetPrefix + Display(account) + " in " + account.org.value.name
    ensures m.Line? && !(account.isPlatform && account.org.Some? && account.org.value.name != "")
            ==> m.text == SetPrefix + Display(account)
  {
    if argv.json then Json(account)
    else if account.isPlatform && account.org.Some? && account.org.value.name != "" then
      Line(SetPrefix + Display(account) + " in " + account.org.value.name)
    else Line(SetPrefix + Display(account))
  }

  /** The org step of a platform account, on the config as persisted. */
  function SwitchStep(account: Account, argv: Argv, cfg: Config.Store, headless: bool,
                      switchOrg: SwitchOrgFn): Outcome
  {
    var orgId := MatchOrg(account.orgs, OrgCandidate(argv, account, cfg));
    var reply := switchOrg(account, orgId);
    if reply.opensBrowser && headless then Failed(HeadlessBrowser, cfg, false)
    else
      var notice := reply.opensBrowser && !argv.json;
      match reply.result
      case Err(reason) => Failed(Remote(reason), cfg, notice)
      case Ok(switched) =>
        match switched.org
        case None => Failed(UndefinedOrg, cfg, notice)
        case Some(o) =>
          Done(switched, Config.Set(cfg, DefaultOrgKey(switched.hash), Str(o.guid)), notice, Output(switched, argv))
  }

  /** The whole command. */
  function Action(accounts: seq<Account>, argv: Argv, cfg: Config.Store, headless: bool,
                  le: (string, string) -> bool, choose: Chooser, switchOrg: SwitchOrgFn): Outcome
  {
    match Guard(accounts, argv)
    case Some(f) => Failed(f, cfg, false)
    case None =>
      match ResolveAccount(accounts, argv, cfg, le, choose)
      case Err(f) => Failed(f, cfg, false)
      case Ok(found) =>
        var account := found.(isDefault := true);
        var persisted := Persist(account, cfg);
        if account.isPlatform then SwitchStep(account, argv, persisted, headless, switchOrg)
        else Done(account, persisted, false, Output(account, argv))
  }
}
