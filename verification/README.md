# amplify-tooling: account switch, request options and registry client

A Dafny model of three pieces of the AMPLIFY/Axway CLI tooling:

- **`axway auth switch`** (`packages/amplify-cli-auth/src/commands/switch.js`). The
  command picks the default authenticated account and, for platform accounts,
  the default organization. The model is `Switch.Action`. It is a pure
  function of:
  - the account list;
  - the `--account`, `--org` and `--json` flags;
  - the config store;
  - whether the environment is headless;
  - the collation order used to sort the prompt;
  - the prompt's answer;
  - the SDK's org switch.

  It returns either the switched account, the new config, whether the
  "Launching web browser" notice was printed and the final message, or the
  failure together with the config as it stood when the command threw and
  whether the notice had been printed by then.
- **Request-option assembly** in the CLI utilities
  (`packages/amplify-cli-utils/src/index.js`): `createRequestOptions`,
  `createNPMRequestArgs` and `buildAuthParams`, in module `CliUtils`.
- **The package registry client** (`packages/amplify-registry-sdk/src/registry.js`),
  in module `Registry`:
  - base-URL choice in the constructor;
  - the `search` URL;
  - the `metadata` URL and argument check;
  - the re-keying of a metadata document's `versions` and `time` by each
    entry's `version`.

Supporting modules:

- `Js` holds JavaScript values: truthiness, `String()`, `||` and `findIndex`.
- `Config` is the config store, a map from dotted key to JS value.
- `Collation` sorts the prompt choices with a stable insertion sort under an
  abstract `localeCompare` order.
- `Wrappers` holds `Option` and `Result`.

Modules named `...Properties` hold the lemmas about whole operations.

Collaborators the code calls but that are not part of the model are
parameters. They are:

- the SDK's `find` (modelled as the first listed account with that name) and
  `switchOrg` (`Switch.SwitchOrgFn`). `switchOrg` reports whether it calls
  `onOpenBrowser`, and then either the account or a remote failure. A throw
  from `onOpenBrowser` is taken to propagate out of `switchOrg`;
- the enquirer prompt (`Switch.Chooser`);
- `isHeadless()`, a boolean;
- `localeCompare`, an abstract order `le`;
- `fs.readFileSync` (`CliUtils.FileReader`);
- `loadConfig()`, the `disk` store;
- `environments.resolve` (`CliUtils.EnvResolver`) and the `environments`
  table (`Registry.Environments`);
- `locations.axwayHome`;
- `encodeURIComponent`, the `encode` parameter;
- the HTTP request together with the JSON parse of its body (`fetch`).

A flag or option that is absent is written as `""`. Absent and empty are
both falsy in JavaScript, and the code tests each of these options only
for truthiness.

Where the command's documentation and its code differ, the model follows the code:

- With `--json` and no `--org`, the command fails for every account, platform
  or not. The check comes before the account is resolved.
- An empty prompt answer leaves `account` undefined, so `account.default = true`
  throws. The command does not exit cleanly. This is `Switch.Failure.UndefinedAccount`.
- The prompt choices are sorted with `localeCompare`, not by code-point order.
  The model takes the order as a parameter and proves the choices sorted
  whenever it is a total preorder.
- `auth.defaultOrg.<hash>` is deleted before it is read, so a remembered org is
  never reused.

## Model

The top-level operations `Switch.Action`, `CliUtils.CreateRequestOptions`,
`CliUtils.CreateNpmRequestArgs`, `CliUtils.BuildAuthParams` and
`Registry.Metadata` have no row of their own. The lemma rows below state
what each of them returns, over all inputs.

| member | source | states |
|---|---|---|
| `SwitchProperties.GuardsComeFirst` | packages/amplify-cli-auth/src/commands/switch.js:25-35 | No accounts, multiple accounts in JSON mode without `--account`, and JSON mode without `--org` each fail, in that order, with the config unchanged. The `--org` check applies to non-platform accounts as well. |
| `SwitchProperties.UnknownAccountFails` | packages/amplify-cli-auth/src/commands/switch.js:37-44 | An `--account` that names no listed account fails with code `ERR_NOT_FOUND`. The failure carries every account name in list order, and the config is untouched. |
| `Switch.Find` | packages/amplify-cli-auth/src/commands/switch.js:38 | The account found is the first in the list with that name. There is none exactly when no account has the name. |
| `SwitchProperties.ShortcutTakesFirstAccount` | packages/amplify-cli-auth/src/commands/switch.js:45-71 | Without `--account`, with one account or in JSON mode, no prompt is shown and the answer cannot matter. The first listed account is chosen. If its name is empty, nothing is chosen. |
| `SwitchProperties.NoPromptNoDependence` | packages/amplify-cli-auth/src/commands/switch.js:49-66 | When the prompt is not shown, the outcome does not depend on what the prompt would answer. |
| `Switch.PromptFor` | packages/amplify-cli-auth/src/commands/switch.js:50-55 | The choices are a permutation of the account names, sorted whenever the collation is a total preorder. `initial` is the first index whose choice equals `auth.defaultAccount`, and -1 exactly when that value is no account's name. |
| `Collation.SortPermutes` | packages/amplify-cli-auth/src/commands/switch.js:52-54 | Sorting the choices keeps every name with its multiplicity. |
| `Collation.SortSorted` | packages/amplify-cli-auth/src/commands/switch.js:54 | Under a total preorder, the sorted choices are ordered pairwise. |
| `SwitchProperties.PromptAnswerDecides` | packages/amplify-cli-auth/src/commands/switch.js:57-73 | A prompt answer that is empty or names no account makes the command throw with the config unchanged. Any other answer becomes `auth.defaultAccount`. |
| `Switch.Persist` | packages/amplify-cli-auth/src/commands/switch.js:73-76 | After persisting, `auth.defaultAccount` is the account's name and `auth.defaultOrg.<hash>` is absent. Every other key keeps its value, and no other key is added. |
| `SwitchProperties.ResolvedAccountPersisted` | packages/amplify-cli-auth/src/commands/switch.js:73-104 | Once an account is resolved, it stays the default account whatever the org step does. A failed org step leaves the account's remembered org deleted. A non-platform account is marked default and finishes without the org step. |
| `SwitchProperties.RememberedOrgNeverReused` | packages/amplify-cli-auth/src/commands/switch.js:75-80 | Because the delete at line 75 precedes the read at line 80, the org candidate is `--org` alone. It is truthy exactly when `--org` is given. |
| `Switch.MatchOrg` | packages/amplify-cli-auth/src/commands/switch.js:80-90 | The org id is that of the first org whose guid, id or name equals the candidate. It is undefined exactly when the candidate is falsy or matches no org. |
| `SwitchProperties.NonPlatformSkipsSwitch` | packages/amplify-cli-auth/src/commands/switch.js:78 | For a non-platform account, neither the org switch nor headlessness can change the outcome. |
| `SwitchProperties.HeadlessBrowserFails` | packages/amplify-cli-auth/src/commands/switch.js:92-100 | If the switch opens a browser in a headless environment, the command fails with the headless error, whatever the switch would have returned or failed with remotely. No notice is printed and no org is remembered for the account. |
| `SwitchProperties.BrowserNoticeOnEveryPath` | packages/amplify-cli-auth/src/commands/switch.js:92-101 | For a platform account, the "Launching web browser" notice is printed exactly when the switch opens a browser outside a headless environment and outside JSON mode, on success and failure alike. A remote failure is reported with its reason unless the headless error came first. |
| `SwitchProperties.SwitchKeepsDefaultAccount` | packages/amplify-cli-auth/src/commands/switch.js:92-103 | The org step never changes `auth.defaultAccount`. When the step fails it leaves the config as it was given. |
| `SwitchProperties.SwitchRemembersOrg` | packages/amplify-cli-auth/src/commands/switch.js:80-103 | A successful switch returns the switched account. It writes `auth.defaultOrg.<returned hash>` as the returned org's guid. A later read of that key selects the first org whose guid, id or name equals that guid. That is the switched org itself when no earlier org of the account matches the guid. The browser notice is printed exactly when a browser opens outside JSON mode. |
| `Switch.Output` | packages/amplify-cli-auth/src/commands/switch.js:108-114 | JSON mode outputs the account itself. Otherwise the message starts with "Default account set to" followed by the email, or the name when there is no email. ` in <org>` is appended exactly for a platform account whose org has a name. |
| `SwitchProperties.ReselectIsIdempotent` | packages/amplify-cli-auth/src/commands/switch.js:37-76 | Re-running with `--account` set to the account just made default keeps that default. |
| `CliUtilsProperties.ExplicitOptionsWin` | packages/amplify-cli-utils/src/index.js:144-162 | Options are copied. Every option the caller set, and every key that is not a network option, comes out unchanged, and no key is lost. |
| `CliUtilsProperties.LoadAllValue` | packages/amplify-cli-utils/src/index.js:152-178 | An unset option takes its value from the first of its config keys that is defined, converted for its kind. If every such key is undefined, the option stays unset. |
| `CliUtilsProperties.ProxyFirstDefined` | packages/amplify-cli-utils/src/index.js:172-178 | An unset `proxy` becomes the first defined value of `network.proxy`, `network.httpsProxy` and `network.httpProxy`. |
| `CliUtilsProperties.StrictSslFromConfig` | packages/amplify-cli-utils/src/index.js:165-166 | An unset `strictSSL` becomes the boolean truthiness of `network.strictSSL` when that key is defined. |
| `CliUtilsProperties.TlsFromFiles` | packages/amplify-cli-utils/src/index.js:167-169 | An unset `ca`, `cert` or `key` becomes the content of the file its config key names. |
| `CliUtilsProperties.RequestOptionsErrors` | packages/amplify-cli-utils/src/index.js:139-150 | `opts` that is falsy, non-null and not undefined throws the TypeError "Expected options to be an object". Any other `opts` that is not a Config, with a truthy config that is not a Config instance, throws exactly the TypeError "Expected config to be an AMPLIFY Config instance". A Config passed as `opts` is used as the config. With readable files and valid arguments the call succeeds. Every failure is one of these TypeErrors or an unreadable file. |
| `CliUtilsProperties.NpmArgsDecode` | packages/amplify-cli-utils/src/index.js:88-102 | `--ca`, `--cert`, `--https-proxy` and `--key` appear, in that order, exactly when their option is truthy, each with its value. The list ends with `--strict-ssl`, whose value is "false" only when `strictSSL` is the boolean false. |
| `CliUtilsProperties.NpmProxyFromConfig` | packages/amplify-cli-utils/src/index.js:84-102 | For a plain options object, `--https-proxy` carries the caller's `proxy` when set, else the first defined of `network.proxy`, `network.httpsProxy` and `network.httpProxy`. The flag appears exactly when that value is truthy. |
| `CliUtilsProperties.NpmStrictSslFromConfig` | packages/amplify-cli-utils/src/index.js:84-102 | For a plain options object, `--strict-ssl` is "false" exactly when the caller's `strictSSL` is false, or, when the caller left it unset, when `network.strictSSL` is defined and falsy. Otherwise it is "true". |
| `CliUtilsProperties.NameSet` | packages/amplify-cli-utils/src/index.js:61 | The set of property names holds exactly the listed names. |
| `CliUtilsProperties.FillValues` | packages/amplify-cli-utils/src/index.js:61-63 | Each listed property is the option when truthy, else the defined `auth.<prop>` config value, else the default. Other keys are untouched. |
| `CliUtilsProperties.AuthParamPrecedence` | packages/amplify-cli-utils/src/index.js:27-68 | `buildAuthParams` produces exactly the listed properties. Each is the option when truthy, else `auth.<prop>` from config when defined, else its default. `requestOptions` is `createRequestOptions` over the same config. |
| `CliUtilsProperties.AuthParamsRejectNonObjects` | packages/amplify-cli-utils/src/index.js:28-30 | Null, a boolean, a number or a string as `opts` throws "Expected options to be an object", although `createRequestOptions` accepts null. |
| `CliUtilsProperties.AuthParamsRejectForeignConfig` | packages/amplify-cli-utils/src/index.js:32-65 | With acceptable `opts`, a truthy config that is not a Config instance makes `buildAuthParams` throw the TypeError "Expected config to be an AMPLIFY Config instance". |
| `Registry.New` | packages/amplify-registry-sdk/src/registry.js:20-22 | The registry URL is the explicit `url` if given. Otherwise it is the named environment's URL when the name is set and known, and otherwise the production URL. |
| `Registry.SearchUrl` | packages/amplify-registry-sdk/src/registry.js:33 | The search URL starts with the base URL followed by `/api/packages/v1/-/search`. |
| `RegistryProperties.SearchUrlIsQuery` | packages/amplify-registry-sdk/src/registry.js:32-47 | On a base URL without a query, the search URL is the search path followed by a standard query string. The string holds the truthy options `text`, `repository` and `type` in that order, each value encoded. |
| `RegistryProperties.SearchUrlOnQueryBase` | packages/amplify-registry-sdk/src/registry.js:35-47 | On a base URL that already holds `?`, `text` is still joined with `?` and the other options with `&`. |
| `RegistryProperties.AppendedOnQuery` | packages/amplify-registry-sdk/src/registry.js:39-47 | Once the URL holds a `?`, every further parameter is joined with `&`. |
| `Registry.MetadataUrl` | packages/amplify-registry-sdk/src/registry.js:63-67 | `metadata` throws the TypeError exactly when the name is not a non-empty string. The URL extends the package URL, and is longer exactly when the version is truthy. |
| `RegistryProperties.MetadataUrlParts` | packages/amplify-registry-sdk/src/registry.js:67 | The path after `/api/packages/v1/` splits at its first `/` into the encoded name and, when the version is truthy, the version. |
| `RegistryProperties.RekeyDomain` | packages/amplify-registry-sdk/src/registry.js:73-80 | After the re-key loop, a key remains in `versions` exactly when it was there and no entry has it as its original key, or some entry writes it as its version and no entry from there on has it as its original key. |
| `RegistryProperties.RekeyTimeDomain` | packages/amplify-registry-sdk/src/registry.js:76-78 | The keys of `time` follow the same rule. |
| `RegistryProperties.SelfKeyedEntryDropped` | packages/amplify-registry-sdk/src/registry.js:73-80 | An entry whose key equals its version is written and then deleted. Unless a later entry writes that version again, the entry is dropped from both `versions` and `time`. |
| `RegistryProperties.RekeyIntended` | packages/amplify-registry-sdk/src/registry.js:73-80 | When no original key is also a version, and versions and keys are distinct, every entry ends up under its version with its original key's time, and only versions remain. |
| `RegistryProperties.MetadataRejectsBadName` | packages/amplify-registry-sdk/src/registry.js:62-65 | A bad name is rejected before any request is made. |
| `RegistryProperties.MetadataNormalizes` | packages/amplify-registry-sdk/src/registry.js:62-83 | For a valid name, a failed request at the document's URL fails the call. A document without `versions` comes back untouched. An empty `versions` leaves `time` as it is. A non-empty `versions` without `time` throws a TypeError. Otherwise, for well-formed entries, each entry sits under its version with its original key's time, and no other version remains. |

## Left out

- `sdk.auth.list`, `find` and `switchOrg` internals, the enquirer prompt UI, `isHeadless()`, `fs.readFileSync`, `loadConfig()`, `environments`, `locations`, `encodeURIComponent` and the HTTP request are not modelled. They are parameters, because their code is not part of this model.
- `config.save()` is not modelled: it writes the file to disk, and the model returns the config instead.
- `console.log` formatting and `highlight` colouring are not modelled. This covers the blank line after the prompt and the not-found `details` indentation, which `Switch.NameList` keeps without colour.
- `cli.emitAction('axway:auth:switch', …)` is not modelled. The source awaits it after both config saves and before the output, and passes the account by reference. The model assumes the listeners neither fail nor change the account, because the listeners are not part of this model.
- The user's `email` is modelled as a field of the account. An account whose `user` object is missing, which would throw at line 111, is left out.
- Organization ids are strings. A numeric id from the platform would never be strictly equal to the `--org` string, so the model cannot show that mismatch.
- Config keys are flat strings. Nested objects under a dotted path, and account hashes that contain dots, are not modelled.
- A truthy string or `Buffer` passed as `opts` is spread into an object of its characters or bytes by `{ ...opts }`. The model treats every truthy primitive as `{}`.
- `NaN` is not among the JS values, and numbers are integers.
- The registry `search` and `metadata` response bodies are abstract. `search`'s `JSON.parse(body).result` is not modelled, and `metadata` takes the parsed result from `fetch`.
- An info object without a `version` string (which would re-key under `"undefined"`) is not modelled.
- `createRequestClient`, `createTable`, `initSDK`, `loadConfig` and the rest of the utilities file are left out. They wrap libraries that are not part of this model.
- `test/helpers/platform-routes.js` is left out, because it is a mock HTTP server for tests.
- `CliUtils.BuildAuthParams`: a truthy config that is not a Config instance is always the TypeError "Expected config to be an AMPLIFY Config instance". The source throws earlier, at line 36, when that object has no `get` method. When `opts` is itself a Config and the foreign config has a `get` method, the source does not throw at all. The model does not distinguish these cases.
- `Switch.PromptFor`: the sortedness of the choices is stated only when the collation is a total preorder. `localeCompare`'s actual order is not modelled.
