/** What a run of `axway auth switch` guarantees, stated over the whole command
    (`Switch.Action`) for every account list, flag set, config, prompt answer
    and org-switch behaviour. */
module SwitchProperties {
  import opened Wrappers
  import opened Js
  import Config
  import opened Switch

  /** The account as the command marks it before persisting. */
  function Chosen(a: Account): Account {
    a.(isDefault := true)
  }

  /** The org target the command passes to the org switch. */
  function Target(a: Account, argv: Argv): Option<string> {
    MatchOrg(a.orgs, Str(argv.org))
  }

  /** The three early checks fail in source order and leave the config as it
      was. The `--org` check precedes account resolution, so in JSON mode it
      fails for platform and non-platform accounts alike. */
  lemma GuardsComeFirst(accounts: seq<Account>, argv: Argv, cfg: Config.Store, headless: bool,
                        le: (string, string) -> bool, choose: Chooser, switchOrg: SwitchOrgFn)
    ensures |accounts| == 0 ==>
              Action(accounts, argv, cfg, headless, le, choose, switchOrg) == Failed(NoAccounts, cfg, false)
    ensures |accounts| > 1 && argv.json && argv.account == "" ==>
              Action(accounts, argv, cfg, headless, le, choose, switchOrg) == Failed(AccountRequired, cfg, false)
    ensures |accounts| > 0 && !(|accounts| > 1 && argv.account == "") && argv.json && argv.org == "" ==>
              Action(accounts, argv, cfg, headless, le, choose, switchOrg) == Failed(OrgRequired, cfg, false)
  {
  }

  /** An unknown `--account` fails with `ERR_NOT_FOUND`, listing every account
      name in list order, before the config is touched. */
  lemma UnknownAccountFails(accounts: seq<Account>, argv: Argv, cfg: Config.Store, headless: bool,
                            le: (string, string) -> bool, choose: Chooser, switchOrg: SwitchOrgFn)
    requires Guard(accounts, argv).None?
    requires argv.account != ""
    requires forall i :: 0 <= i < |accounts| ==> accounts[i].name != argv.account
    ensures Action(accounts, argv, cfg, headless, le, choose, switchOrg)
            == Failed(AccountNotFound(argv.account, Names(accounts)), cfg, false)
    ensures Action(accounts, argv, cfg, headless, le, choose, switchOrg).failure.Code() == "ERR_NOT_FOUND"
  {
  }

  /** Without a prompt the prompt's answer cannot matter; without `--account`
      that is the single-account and the JSON case, and the first listed
      account is taken. */
  lemma ShortcutTakesFirstAccount(accounts: seq<Account>, argv: Argv, cfg: Config.Store,
                                  le: (string, string) -> bool, choose1: Chooser, choose2: Chooser)
    requires |accounts| == 1 || (|accounts| > 0 && argv.json)
    requires argv.account == ""
    ensures !Prompts(accounts, argv)
    ensures ResolveAccount(accounts, argv, cfg, le, choose1) == ResolveAccount(accounts, argv, cfg, le, choose2)
    ensures accounts[0].name != "" ==> ResolveAccount(accounts, argv, cfg, le, choose1) == Ok(accounts[0])
    ensures accounts[0].name == "" ==> ResolveAccount(accounts, argv, cfg, le, choose1) == Err(UndefinedAccount)
  {
  }

  lemma NoPromptNoDependence(accounts: seq<Account>, argv: Argv, cfg: Config.Store, headless: bool,
                             le: (string, string) -> bool, choose1: Chooser, choose2: Chooser,
                             switchOrg: SwitchOrgFn)
    requires !Prompts(accounts, argv)
    ensures Action(accounts, argv, cfg, headless, le, choose1, switchOrg)
            == Action(accounts, argv, cfg, headless, le, choose2, switchOrg)
  {
  }

  /** A prompt answer that names no account, the empty answer included, makes
      `account.default = true` throw before the config is touched; an answer
      that names one makes it the default account. */
  lemma PromptAnswerDecides(accounts: seq<Account>, argv: Argv, cfg: Config.Store, headless: bool,
                            le: (string, string) -> bool, choose: Chooser, switchOrg: SwitchOrgFn)
    requires Prompts(accounts, argv)
    requires Guard(accounts, argv).None?
    ensures var answer := choose(PromptFor(accounts, cfg, le));
            var out := Action(accounts, argv, cfg, headless, le, choose, switchOrg);
            && ((answer == "" || forall i :: 0 <= i < |accounts| ==> accounts[i].name != answer)
                <==> out == Failed(UndefinedAccount, cfg, false))
            && (out != Failed(UndefinedAccount, cfg, false) ==> Config.Get(out.config, DefaultAccountKey) == Str(answer))
  {
    var answer := choose(PromptFor(accounts, cfg, le));
    var found := Find(accounts, answer);
    var r := ResolveAccount(accounts, argv, cfg, le, choose);
    assert r == if answer == "" || found.None? then Err(UndefinedAccount) else Ok(found.value);
    if r.Ok? {
      ResolvedAccountPersisted(accounts, argv, cfg, headless, le, choose, switchOrg, r.value);
    }
  }

  /** The org step never writes the default-account key, and on failure the
      config is the one it was given. */
  lemma SwitchKeepsDefaultAccount(account: Account, argv: Argv, cfg: Config.Store, headless: bool,
                                  switchOrg: SwitchOrgFn)
    ensures Config.Get(SwitchStep(account, argv, cfg, headless, switchOrg).config, DefaultAccountKey)
            == Config.Get(cfg, DefaultAccountKey)
    ensures SwitchStep(account, argv, cfg, headless, switchOrg).Failed? ==>
              SwitchStep(account, argv, cfg, headless, switchOrg).config == cfg
  {
    var out := SwitchStep(account, argv, cfg, headless, switchOrg);
    if out.Done? {
      KeysDiffer(out.account.hash);
    }
  }

  /** Once an account is resolved it is the default account from then on,
      whatever the org step does; if the org step fails, the account's
      remembered org stays deleted, and only the org step can fail from here.
      A non-platform account is marked default and never reaches the org step. */
  lemma ResolvedAccountPersisted(accounts: seq<Account>, argv: Argv, cfg: Config.Store, headless: bool,
                                 le: (string, string) -> bool, choose: Chooser, switchOrg: SwitchOrgFn,
                                 a: Account)
    requires Guard(accounts, argv).None?
    requires ResolveAccount(accounts, argv, cfg, le, choose) == Ok(a)
    ensures var out := Action(accounts, argv, cfg, headless, le, choose, switchOrg);
            && Config.Get(out.config, DefaultAccountKey) == Str(a.name)
            && (out.Failed? ==> DefaultOrgKey(a.hash) !in out.config)
            && (out.Failed? ==> a.isPlatform && out.failure != UndefinedAccount)
            && (!a.isPlatform ==> out == Done(Chosen(a), Persist(Chosen(a), cfg), false, Output(Chosen(a), argv)))
            && (!a.isPlatform ==> out.account.isDefault)
  {
    if a.isPlatform {
      SwitchKeepsDefaultAccount(Chosen(a), argv, Persist(Chosen(a), cfg), headless, switchOrg);
    }
  }

  /** A non-platform account skips the org switch: neither the switch nor the
      headless probe can change the outcome. */
  lemma NonPlatformSkipsSwitch(accounts: seq<Account>, argv: Argv, cfg: Config.Store,
                               le: (string, string) -> bool, choose: Chooser, a: Account,
                               headless1: bool, switchOrg1: SwitchOrgFn,
                               headless2: bool, switchOrg2: SwitchOrgFn)
    requires ResolveAccount(accounts, argv, cfg, le, choose) == Ok(a)
    requires !a.isPlatform
    ensures Action(accounts, argv, cfg, headless1, le, choose, switchOrg1)
            == Action(accounts, argv, cfg, headless2, le, choose, switchOrg2)
  {
  }

  /** The org remembered for the account is deleted before it is read, so the
      candidate org is `--org` alone: truthy exactly when `--org` is given. */
  lemma RememberedOrgNeverReused(argv: Argv, account: Account, cfg: Config.Store)
    ensures var c := OrgCandidate(argv, account, Persist(account, cfg));
            && (Truthy(c) <==> argv.org != "")
            && (argv.org != "" ==> c == Str(argv.org))
    ensures MatchOrg(account.orgs, OrgCandidate(argv, account, Persist(account, cfg)))
            == MatchOrg(account.orgs, Str(argv.org))
  {
  }

  /** If the org switch needs a browser in a headless environment the command
      fails with the headless error, whatever the switch would have returned
      or failed with remotely; no notice is printed and no org is remembered
      for the account. */
  lemma HeadlessBrowserFails(accounts: seq<Account>, argv: Argv, cfg: Config.Store,
                             le: (string, string) -> bool, choose: Chooser, switchOrg: SwitchOrgFn,
                             a: Account)
    requires Guard(accounts, argv).None?
    requires ResolveAccount(accounts, argv, cfg, le, choose) == Ok(a)
    requires a.isPlatform
    requires switchOrg(Chosen(a), Target(a, argv)).opensBrowser
    ensures Action(accounts, argv, cfg, true, le, choose, switchOrg)
            == Failed(HeadlessBrowser, Persist(Chosen(a), cfg), false)
    ensures DefaultOrgKey(a.hash) !in Action(accounts, argv, cfg, true, le, choose, switchOrg).config
  {
    RememberedOrgNeverReused(argv, Chosen(a), cfg);
  }

  /** For a platform account the notice is printed exactly when the switch
      opens a browser outside a headless environment and outside JSON mode,
      whether the run then succeeds or fails; a remote failure is reported as
      it is unless the headless check threw first. */
  lemma BrowserNoticeOnEveryPath(accounts: seq<Account>, argv: Argv, cfg: Config.Store, headless: bool,
                                 le: (string, string) -> bool, choose: Chooser, switchOrg: SwitchOrgFn,
                                 a: Account)
    requires Guard(accounts, argv).None?
    requires ResolveAccount(accounts, argv, cfg, le, choose) == Ok(a)
    requires a.isPlatform
    ensures var reply := switchOrg(Chosen(a), Target(a, argv));
            var out := Action(accounts, argv, cfg, headless, le, choose, switchOrg);
            && out.notice == (reply.opensBrowser && !headless && !argv.json)
            && (reply.result.Err? && !(reply.opensBrowser && headless) ==>
                  out == Failed(Remote(reply.result.error), Persist(Chosen(a), cfg), reply.opensBrowser && !argv.json))
  {
    RememberedOrgNeverReused(argv, Chosen(a), cfg);
  }

  /** A successful org switch remembers the returned org's guid under the
      returned account's hash. A later read of that key (the path taken
      without `--org`) yields the guid back, so it selects the first org
      whose guid, id or name equals that guid; that is the switched org
      itself unless an earlier org of the account matches the guid. */
  lemma SwitchRemembersOrg(accounts: seq<Account>, argv: Argv, cfg: Config.Store, headless: bool,
                           le: (string, string) -> bool, choose: Chooser, switchOrg: SwitchOrgFn,
                           a: Account, opensBrowser: bool, switched: Account, o: Org)
    requires Guard(accounts, argv).None?
    requires ResolveAccount(accounts, argv, cfg, le, choose) == Ok(a)
    requires a.isPlatform
    requires switchOrg(Chosen(a), Target(a, argv)) == SwitchReply(opensBrowser, Ok(switched))
    requires switched.org == Some(o)
    requires !(opensBrowser && headless)
    ensures var out := Action(accounts, argv, cfg, headless, le, choose, switchOrg);
            && out.Done?
            && out.account == switched
            && out.notice == (opensBrowser && !argv.json)
            && Config.Get(out.config, DefaultOrgKey(switched.hash)) == Str(o.guid)
            && Config.Get(out.config, DefaultAccountKey) == Str(a.name)
    ensures var out := Action(accounts, argv, cfg, headless, le, choose, switchOrg);
            switched.hash != "" ==> OrgCandidate(Argv("", "", false), switched, out.config) == Str(o.guid)
    ensures var out := Action(accounts, argv, cfg, headless, le, choose, switchOrg);
            switched.hash != "" ==>
              MatchOrg(switched.orgs, OrgCandidate(Argv("", "", false), switched, out.config))
              == MatchOrg(switched.orgs, Str(o.guid))
    ensures var out := Action(accounts, argv, cfg, headless, le, choose, switchOrg);
            switched.hash != "" && o.guid != "" && o in switched.orgs ==>
              MatchOrg(switched.orgs, OrgCandidate(Argv("", "", false), switched, out.config)).Some?
    ensures var out := Action(accounts, argv, cfg, headless, le, choose, switchOrg);
            switched.hash != "" && o.guid != "" ==>
              forall k :: 0 <= k < |switched.orgs| && switched.orgs[k] == o
                          && (forall j :: 0 <= j < k ==> !Matches(switched.orgs[j], Str(o.guid))) ==>
                MatchOrg(switched.orgs, OrgCandidate(Argv("", "", false), switched, out.config)) == Some(o.id)
  {
    RememberedOrgNeverReused(argv, Chosen(a), cfg);
    KeysDiffer(switched.hash);
    var out := Action(accounts, argv, cfg, headless, le, choose, switchOrg);
    if switched.hash != "" && o.guid != "" {
      if o in switched.orgs {
        var k :| 0 <= k < |switched.orgs| && switched.orgs[k] == o;
        assert Matches(switched.orgs[k], Str(o.guid));
      }
      forall k | 0 <= k < |switched.orgs| && switched.orgs[k] == o
                 && (forall j :: 0 <= j < k ==> !Matches(switched.orgs[j], Str(o.guid)))
        ensures MatchOrg(switched.orgs, Str(o.guid)) == Some(o.id)
      {
        FirstMatchIsOrg(switched.orgs, o, k);
      }
    }
  }

  /** The org at `k` is the one matched when it matches its own guid and no
      earlier org does. */
  lemma FirstMatchIsOrg(orgs: seq<Org>, o: Org, k: int)
    requires 0 <= k < |orgs| && orgs[k] == o && o.guid != ""
    requires forall j :: 0 <= j < k ==> !Matches(orgs[j], Str(o.guid))
    ensures MatchOrg(orgs, Str(o.guid)) == Some(o.id)
  {
    assert Matches(orgs[k], Str(o.guid));
    var r := MatchOrg(orgs, Str(o.guid));
    var i :| 0 <= i < |orgs| && Matches(orgs[i], Str(o.guid)) && r.value == orgs[i].id
             && forall j :: 0 <= j < i ==> !Matches(orgs[j], Str(o.guid));
    assert i == k;
  }

  /** Running the command again with `--account` set to the account it just
      made the default keeps that default. */
  lemma ReselectIsIdempotent(accounts: seq<Account>, argv: Argv, cfg: Config.Store, headless: bool,
                             le: (string, string) -> bool, choose: Chooser, switchOrg: SwitchOrgFn,
                             headless2: bool, choose2: Chooser, switchOrg2: SwitchOrgFn)
    requires Action(accounts, argv, cfg, headless, le, choose, switchOrg).Done?
    ensures var first := Action(accounts, argv, cfg, headless, le, choose, switchOrg);
            var n := Config.Get(first.config, DefaultAccountKey);
            && n.Str?
            && n.s != ""
            && Config.Get(Action(accounts, argv.(account := n.s), first.config, headless2, le, choose2, switchOrg2).config,
                          DefaultAccountKey) == n
  {
    var first := Action(accounts, argv, cfg, headless, le, choose, switchOrg);
    var a := ResolveAccount(accounts, argv, cfg, le, choose).value;
    ResolvedAccountPersisted(accounts, argv, cfg, headless, le, choose, switchOrg, a);
    var argv2 := argv.(account := a.name);
    assert a.name != "";
    assert a in accounts;
    var found := Find(accounts, a.name);
    assert found.Some?;
    assert ResolveAccount(accounts, argv2, first.config, le, choose2) == Ok(found.value);
    ResolvedAccountPersisted(accounts, argv2, first.config, headless2, le, choose2, switchOrg2, found.value);
  }
}
