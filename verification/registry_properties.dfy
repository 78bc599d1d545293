/** Properties of the registry client: the search URL against an independent
    query-string definition, the metadata URL's parts, and what the version
    re-key loop keeps, moves and drops. */
module RegistryProperties {
  import opened Wrappers
  import opened Js
  import opened Registry

  /** The search options that are set, as name/value pairs in the fixed order
      `text`, `repository`, `type`. */
  function SearchParams(text: string, repository: string, kind: string): seq<(string, string)> {
    (if text != "" then [("text", text)] else [])
    + (if repository != "" then [("repository", repository)] else [])
    + (if kind != "" then [("type", kind)] else [])
  }

  function AndFields(ps: seq<(string, string)>, encode: string -> string): string
    decreases |ps|
  {
    if ps == [] then "" else "&" + Param(ps[0].0, ps[0].1, encode) + AndFields(ps[1..], encode)
  }

  /** A query string: `?` before the first parameter, `&` between the rest. */
  function Query(ps: seq<(string, string)>, encode: string -> string): string {
    if ps == [] then "" else "?" + Param(ps[0].0, ps[0].1, encode) + AndFields(ps[1..], encode)
  }

  /** Adding parameters one at a time the way `search` adds `repository`
      and `type`: each joined with `?` or `&` as the URL so far requires. */
  function Appended(u: string, ps: seq<(string, string)>, encode: string -> string): string
    decreases |ps|
  {
    if ps == [] then u else Appended(u + Sep(u) + Param(ps[0].0, ps[0].1, encode), ps[1..], encode)
  }

  lemma {:induction false} AppendedConcat(u: string, a: seq<(string, string)>, b: seq<(string, string)>,
                                          encode: string -> string)
    ensures Appended(u, a + b, encode) == Appended(Appended(u, a, encode), b, encode)
    decreases |a|
  {
    if a == [] {
      assert a + b == b;
    } else {
      assert (a + b)[0] == a[0];
      assert (a + b)[1..] == a[1..] + b;
      AppendedConcat(u + Sep(u) + Param(a[0].0, a[0].1, encode), a[1..], b, encode);
    }
  }

  /** Once the URL holds a `?`, every further parameter is joined with `&`. */
  lemma {:induction false} AppendedOnQuery(u: string, ps: seq<(string, string)>, encode: string -> string)
    requires '?' in u
    ensures Appended(u, ps, encode) == u + AndFields(ps, encode)
    decreases |ps|
  {
    if ps != [] {
      var u' := u + "&" + Param(ps[0].0, ps[0].1, encode);
      assert '?' in u' by { assert u' == u + ("&" + Param(ps[0].0, ps[0].1, encode)); }
      AppendedOnQuery(u', ps[1..], encode);
    }
  }

  /** On a URL without a query, appending parameters writes a query string. */
  lemma AppendedIsQuery(u: string, ps: seq<(string, string)>, encode: string -> string)
    requires '?' !in u
    ensures Appended(u, ps, encode) == u + Query(ps, encode)
  {
    if ps != [] {
      var u' := u + "?" + Param(ps[0].0, ps[0].1, encode);
      assert '?' in u' by { assert u'[|u|] == '?'; }
      AppendedOnQuery(u', ps[1..], encode);
    }
  }

  lemma AppendedOne(u: string, name: string, v: string, encode: string -> string)
    ensures Appended(u, if v != "" then [(name, v)] else [], encode)
            == if v != "" then u + Sep(u) + Param(name, v, encode) else u
  {
  }

  /** The search URL adds the three options in order to the search path. */
  lemma SearchUrlAppends(c: Client, text: string, repository: string, kind: string,
                         encode: string -> string)
    ensures var base := c.url + SearchPath;
            var t := if text != "" then base + "?" + Param("text", text, encode) else base;
            SearchUrl(c, text, repository, kind, encode)
            == Appended(t, SearchParams("", repository, kind), encode)
  {
    var base := c.url + SearchPath;
    var t := if text != "" then base + "?" + Param("text", text, encode) else base;
    var r: seq<(string, string)> := if repository != "" then [("repository", repository)] else [];
    var k: seq<(string, string)> := if kind != "" then [("type", kind)] else [];
    assert SearchParams("", repository, kind) == r + k;
    AppendedConcat(t, r, k, encode);
    AppendedOne(t, "repository", repository, encode);
    var u2 := Appended(t, r, encode);
    AppendedOne(u2, "type", kind, encode);
  }

  /** Against a base URL without a query, the search URL is the search path
      followed by the set options as a query string, in the fixed order. */
  lemma SearchUrlIsQuery(c: Client, text: string, repository: string, kind: string,
                         encode: string -> string)
    requires '?' !in c.url
    ensures SearchUrl(c, text, repository, kind, encode)
            == c.url + SearchPath + Query(SearchParams(text, repository, kind), encode)
  {
    var base := c.url + SearchPath;
    assert '?' !in SearchPath;
    assert '?' !in base;
    var t: seq<(string, string)> := if text != "" then [("text", text)] else [];
    var rest := SearchParams("", repository, kind);
    assert SearchParams(text, repository, kind) == t + rest;
    SearchUrlAppends(c, text, repository, kind, encode);
    AppendedOne(base, "text", text, encode);
    AppendedConcat(base, t, rest, encode);
    AppendedIsQuery(base, t + rest, encode);
  }

  /** A base URL that already holds a `?` is not checked for `text`: that
      parameter is still joined with `?`, the others with `&`. */
  lemma SearchUrlOnQueryBase(c: Client, text: string, repository: string, kind: string,
                             encode: string -> string)
    requires '?' in c.url
    ensures SearchUrl(c, text, repository, kind, encode)
            == c.url + SearchPath
               + (if text != "" then "?" + Param("text", text, encode) else "")
               + AndFields(SearchParams("", repository, kind), encode)
  {
    var base := c.url + SearchPath;
    assert '?' in base;
    var t := if text != "" then base + "?" + Param("text", text, encode) else base;
    assert t == base + (if text != "" then "?" + Param("text", text, encode) else "");
    assert '?' in t;
    SearchUrlAppends(c, text, repository, kind, encode);
    AppendedOnQuery(t, SearchParams("", repository, kind), encode);
  }

  /** The first '/' splits a metadata path into the package part and the
      version part. */
  function BeforeSlash(s: string): string
    decreases |s|
  {
    if s == [] || s[0] == '/' then [] else [s[0]] + BeforeSlash(s[1..])
  }

  lemma {:induction false} BeforeSlashOfJoin(a: string, b: string)
    requires '/' !in a
    ensures BeforeSlash(a + "/" + b) == a
    decreases |a|
  {
    if a == [] {
      assert (a + "/" + b)[0] == '/';
    } else {
      assert (a + "/" + b)[0] == a[0];
      assert (a + "/" + b)[1..] == a[1..] + "/" + b;
      BeforeSlashOfJoin(a[1..], b);
      assert [a[0]] + a[1..] == a;
    }
  }

  lemma {:induction false} BeforeSlashOfPlain(a: string)
    requires '/' !in a
    ensures BeforeSlash(a) == a
    decreases |a|
  {
    if a != [] {
      BeforeSlashOfPlain(a[1..]);
      assert [a[0]] + a[1..] == a;
    }
  }

  /** Since `encodeURIComponent` escapes '/', the package part of a metadata
      URL is the encoded name whether or not a version is appended, and the
      version, when truthy, is everything after it. */
  lemma MetadataUrlParts(c: Client, name: string, version: Value, encode: string -> string)
    requires name != ""
    requires '/' !in encode(name)
    ensures var r := MetadataUrl(c, Str(name), version, encode);
            var prefix := c.url + PackagesPath;
            && r.Ok?
            && prefix <= r.value
            && BeforeSlash(r.value[|prefix|..]) == encode(name)
            && (Truthy(version) ==> r.value[|prefix| + |encode(name)| + 1..] == ToStr(version))
            && (!Truthy(version) ==> r.value == prefix + encode(name))
  {
    var prefix := c.url + PackagesPath;
    var e := encode(name);
    var r := MetadataUrl(c, Str(name), version, encode).value;
    if Truthy(version) {
      var v := ToStr(version);
      var tail := e + "/" + v;
      calc {
        r;
        prefix + e + ("/" + v);
        { SplitAt(prefix, e, v); }
        prefix + tail;
      }
      DropPrefix(prefix, tail);
      DropPrefix(e + "/", v);
      BeforeSlashOfJoin(e, v);
      assert r[|prefix| + |e| + 1..] == tail[|e| + 1..];
    } else {
      assert r == prefix + e;
      DropPrefix(prefix, e);
      BeforeSlashOfPlain(e);
    }
  }

  lemma SplitAt(a: string, b: string, c: string)
    ensures a + b + ("/" + c) == a + (b + "/" + c)
  {
  }

  lemma DropPrefix(a: string, b: string)
    ensures (a + b)[|a|..] == b
  {
  }

  /** No entry of `snapshot` has `k` as its original key, so the loop never
      deletes `k`. */
  ghost predicate NeverDeleted(snapshot: seq<(string, Info)>, k: string) {
    forall j :: 0 <= j < |snapshot| ==> snapshot[j].0 != k
  }

  /** Some entry writes `k` as its version and no entry from it on deletes
      `k` again. */
  ghost predicate WrittenLast(snapshot: seq<(string, Info)>, k: string) {
    exists i :: 0 <= i < |snapshot| && snapshot[i].1.version == k && NeverDeleted(snapshot[i..], k)
  }

  lemma NeverDeletedStep(snapshot: seq<(string, Info)>, k: string)
    requires snapshot != []
    ensures NeverDeleted(snapshot, k) <==> snapshot[0].0 != k && NeverDeleted(snapshot[1..], k)
  {
    if snapshot[0].0 != k && NeverDeleted(snapshot[1..], k) {
      forall j | 0 <= j < |snapshot| ensures snapshot[j].0 != k {
        if j > 0 { assert snapshot[j] == snapshot[1..][j - 1]; }
      }
    }
  }

  lemma WrittenLastStep(snapshot: seq<(string, Info)>, k: string)
    requires snapshot != []
    ensures WrittenLast(snapshot, k)
            <==> WrittenLast(snapshot[1..], k) || (snapshot[0].1.version == k && NeverDeleted(snapshot, k))
  {
    var rest := snapshot[1..];
    if WrittenLast(rest, k) {
      var i :| 0 <= i < |rest| && rest[i].1.version == k && NeverDeleted(rest[i..], k);
      assert snapshot[i + 1] == rest[i];
      assert snapshot[i + 1..] == rest[i..];
    }
    if snapshot[0].1.version == k && NeverDeleted(snapshot, k) {
      assert snapshot[0..] == snapshot;
    }
    if WrittenLast(snapshot, k) && !(snapshot[0].1.version == k && NeverDeleted(snapshot, k)) {
      var i :| 0 <= i < |snapshot| && snapshot[i].1.version == k && NeverDeleted(snapshot[i..], k);
      if i == 0 {
        assert snapshot[0..] == snapshot;
      } else {
        assert rest[i - 1] == snapshot[i];
        assert rest[i - 1..] == snapshot[i..];
      }
    }
  }

  /** Which keys survive the re-key loop: a key some entry writes as its
      version and no entry from that one on has as its original key, and a
      key of the starting map no entry has as its original key. */
  lemma {:induction false} RekeyDomain(versions: map<string, Info>, snapshot: seq<(string, Info)>, k: string)
    ensures k in Rekey(versions, snapshot)
            <==> (k in versions && NeverDeleted(snapshot, k)) || WrittenLast(snapshot, k)
    decreases |snapshot|
  {
    if snapshot != [] {
      var (key, info) := snapshot[0];
      RekeyDomain(versions[info.version := info] - {key}, snapshot[1..], k);
      NeverDeletedStep(snapshot, k);
      WrittenLastStep(snapshot, k);
    }
  }

  /** The same holds for the keys of `time`, which the loop treats alike. */
  lemma {:induction false} RekeyTimeDomain(time: Js.Object, snapshot: seq<(string, Info)>, k: string)
    ensures k in RekeyTime(time, snapshot)
            <==> (k in time && NeverDeleted(snapshot, k)) || WrittenLast(snapshot, k)
    decreases |snapshot|
  {
    if snapshot != [] {
      var (key, info) := snapshot[0];
      RekeyTimeDomain(time[info.version := Prop(time, key)] - {key}, snapshot[1..], k);
      NeverDeletedStep(snapshot, k);
      WrittenLastStep(snapshot, k);
    }
  }

  lemma {:induction false} ToMapKeys(entries: seq<(string, Info)>)
    ensures forall k :: k in ToMap(entries) <==> exists i :: 0 <= i < |entries| && entries[i].0 == k
    decreases |entries|
  {
    if entries != [] {
      var init := entries[..|entries| - 1];
      ToMapKeys(init);
      forall k ensures k in ToMap(entries) <==> exists i :: 0 <= i < |entries| && entries[i].0 == k {
        if k in ToMap(init) {
          var i :| 0 <= i < |init| && init[i].0 == k;
          assert entries[i].0 == k;
        }
        if exists i :: 0 <= i < |entries| && entries[i].0 == k {
          var i :| 0 <= i < |entries| && entries[i].0 == k;
          if i < |init| { assert init[i].0 == k; }
        }
      }
    }
  }

  /** An entry whose key already equals its version is dropped from
      `versions` and from `time` unless a later entry writes that version
      again: the loop writes the key and then deletes it. */
  lemma SelfKeyedEntryDropped(entries: seq<(string, Info)>, time: Js.Object, i: int)
    requires 0 <= i < |entries|
    requires entries[i].0 == entries[i].1.version
    requires forall j :: i < j < |entries| ==> entries[j].1.version != entries[i].0
    ensures entries[i].0 !in Rekey(ToMap(entries), entries)
    ensures entries[i].0 !in RekeyTime(time, entries)
  {
    var k := entries[i].0;
    RekeyDomain(ToMap(entries), entries, k);
    RekeyTimeDomain(time, entries, k);
    assert !NeverDeleted(entries, k);
    forall i' | 0 <= i' < |entries| && entries[i'].1.version == k
      ensures !NeverDeleted(entries[i'..], k)
    {
      assert entries[i'..][i - i'] == entries[i];
    }
  }

  /** Entries whose original keys are not versions of any entry, and whose
      versions are distinct, are re-keyed: `versions` maps each version to its
      entry and holds nothing else. */
  ghost predicate Rekeyable(entries: seq<(string, Info)>) {
    && (forall i, j :: 0 <= i < |entries| && 0 <= j < |entries| ==> entries[i].0 != entries[j].1.version)
    && (forall i, j :: 0 <= i < j < |entries| ==> entries[i].1.version != entries[j].1.version)
    && (forall i, j :: 0 <= i < j < |entries| ==> entries[i].0 != entries[j].0)
  }

  /** Keys the loop neither writes nor deletes keep their value. */
  lemma {:induction false} RekeyFrame(versions: map<string, Info>, time: Js.Object,
                                      snapshot: seq<(string, Info)>, k: string)
    requires forall j :: 0 <= j < |snapshot| ==> snapshot[j].0 != k && snapshot[j].1.version != k
    ensures k in versions ==> k in Rekey(versions, snapshot) && Rekey(versions, snapshot)[k] == versions[k]
    ensures Prop(RekeyTime(time, snapshot), k) == Prop(time, k)
    decreases |snapshot|
  {
    if snapshot != [] {
      var (key, info) := snapshot[0];
      assert key != k && info.version != k;
      RekeyFrame(versions[info.version := info] - {key}, time[info.version := Prop(time, key)] - {key},
                 snapshot[1..], k);
    }
  }

  lemma {:induction false} RekeyMoves(versions: map<string, Info>, time: Js.Object, snapshot: seq<(string, Info)>)
    requires Rekeyable(snapshot)
    ensures forall i :: 0 <= i < |snapshot| ==>
              && snapshot[i].1.version in Rekey(versions, snapshot)
              && Rekey(versions, snapshot)[snapshot[i].1.version] == snapshot[i].1
              && Prop(RekeyTime(time, snapshot), snapshot[i].1.version) == Prop(time, snapshot[i].0)
    decreases |snapshot|
  {
    if snapshot != [] {
      var (key, info) := snapshot[0];
      var rest := snapshot[1..];
      var next := versions[info.version := info] - {key};
      var nextTime := time[info.version := Prop(time, key)] - {key};
      assert Rekeyable(rest) by {
        assert forall i :: 0 <= i < |rest| ==> rest[i] == snapshot[i + 1];
      }
      RekeyMoves(next, nextTime, rest);
      assert forall j :: 0 <= j < |rest| ==> rest[j].0 != info.version && rest[j].1.version != info.version by {
        assert forall j :: 0 <= j < |rest| ==> rest[j] == snapshot[j + 1];
      }
      assert key != info.version by {
        assert snapshot[0].0 != snapshot[0].1.version;
      }
      RekeyFrame(next, nextTime, rest, info.version);
      forall i | 0 <= i < |snapshot|
        ensures && snapshot[i].1.version in Rekey(versions, snapshot)
                && Rekey(versions, snapshot)[snapshot[i].1.version] == snapshot[i].1
                && Prop(RekeyTime(time, snapshot), snapshot[i].1.version) == Prop(time, snapshot[i].0)
      {
        if i > 0 {
          assert snapshot[i] == rest[i - 1];
          assert snapshot[i].0 != key;
          assert snapshot[i].0 != info.version;
        }
      }
    }
  }

  /** With keys that are not versions and distinct versions, the loop does
      what it is for: every entry ends up under its version, with the time of
      its original key, and only versions remain as keys. */
  lemma RekeyIntended(entries: seq<(string, Info)>, time: Js.Object)
    requires Rekeyable(entries)
    ensures var r := Rekey(ToMap(entries), entries);
            && (forall i :: 0 <= i < |entries| ==> entries[i].1.version in r && r[entries[i].1.version] == entries[i].1)
            && (forall k :: k in r ==> exists i :: 0 <= i < |entries| && entries[i].1.version == k)
    ensures forall i :: 0 <= i < |entries| ==>
              Prop(RekeyTime(time, entries), entries[i].1.version) == Prop(time, entries[i].0)
  {
    RekeyMoves(ToMap(entries), time, entries);
    ToMapKeys(entries);
    forall k | k in Rekey(ToMap(entries), entries)
      ensures exists i :: 0 <= i < |entries| && entries[i].1.version == k
    {
      RekeyDomain(ToMap(entries), entries, k);
    }
  }

  /** `metadata` rejects a name that is not a non-empty string before any
      request is made. */
  lemma MetadataRejectsBadName(c: Client, name: Value, version: Value, encode: string -> string,
                               fetch: string -> Result<Response, Error>)
    requires !(name.Str? && name.s != "")
    ensures Metadata(c, name, version, encode, fetch) == Err(TypeError("Expected name to be a valid string"))
  {
  }

  /** What `metadata` returns for a valid name, by what the registry answers
      at the document's URL: a failed request fails the call; a document
      without `versions` comes back as it is; an empty `versions` skips
      `time`; a non-empty `versions` without `time` is a TypeError; otherwise
      each well-formed entry sits under its version, nothing else does, and
      `time` at each version holds the time of the entry's original key. */
  lemma MetadataNormalizes(c: Client, name: string, version: Value, encode: string -> string,
                           fetch: string -> Result<Response, Error>)
    requires name != ""
    ensures var url := c.url + PackagesPath + encode(name) + (if Truthy(version) then "/" + ToStr(version) else "");
            var r := Metadata(c, Str(name), version, encode, fetch);
            && (fetch(url).Err? ==> r == Err(fetch(url).error))
            && (fetch(url).Ok? && fetch(url).value.versions.None? ==> r == Ok(Document(None, fetch(url).value.time)))
            && (fetch(url).Ok? && fetch(url).value.versions == Some([]) ==>
                  r == Ok(Document(Some(map[]), fetch(url).value.time)))
            && ((fetch(url).Ok? && fetch(url).value.versions.Some? && fetch(url).value.versions.value != []
                 && fetch(url).value.time.None?) ==> r == Err(TypeError("Cannot read property of undefined")))
    ensures var url := c.url + PackagesPath + encode(name) + (if Truthy(version) then "/" + ToStr(version) else "");
            var r := Metadata(c, Str(name), version, encode, fetch);
            fetch(url).Ok? && fetch(url).value.versions.Some? && fetch(url).value.versions.value != []
            && fetch(url).value.time.Some? && Rekeyable(fetch(url).value.versions.value) ==>
              var entries := fetch(url).value.versions.value;
              var time := fetch(url).value.time.value;
              && r.Ok? && r.value.versions.Some? && r.value.time.Some?
              && (forall i :: 0 <= i < |entries| ==>
                    entries[i].1.version in r.value.versions.value
                    && r.value.versions.value[entries[i].1.version] == entries[i].1
                    && Prop(r.value.time.value, entries[i].1.version) == Prop(time, entries[i].0))
              && (forall k :: k in r.value.versions.value ==> exists i :: 0 <= i < |entries| && entries[i].1.version == k)
  {
    var url := c.url + PackagesPath + encode(name) + (if Truthy(version) then "/" + ToStr(version) else "");
    assert MetadataUrl(c, Str(name), version, encode) == Ok(url);
    if fetch(url).Ok? && fetch(url).value.versions.Some? && fetch(url).value.versions.value != []
       && fetch(url).value.time.Some? && Rekeyable(fetch(url).value.versions.value) {
      RekeyIntended(fetch(url).value.versions.value, fetch(url).value.time.value);
    }
  }
}
