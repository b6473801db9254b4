/** The worker configuration: a YAML tree loaded lazily from config.yml and read by
    dotted paths; a validator for the required paths; export of credentials to ENV. */
module Config {
  import opened Wrappers
  import opened Values
  import Text
  import Seqs

  /** The paths `validate!` insists on, in declaration order. */
  const RequiredKeys: seq<string> := [
    "faktory.url",
    "jira.cloud_id",
    "jira.project_key",
    "google_calendar.client_id",
    "google_calendar.client_secret",
    "google_calendar.refresh_token",
    "google_calendar.calendar_id",
    "google_calendar.timezone",
    "slack.workspaces",
    "outlook.inbox_url",
    "outlook.calendar_url",
    "linkedin.feed_url",
    "granola.notes_dir"
  ]

  /** The environment variables `export_env!` fills, each with the path it reads, in order. */
  const EnvExports: seq<(string, string)> := [
    ("FAKTORY_URL", "faktory.url"),
    ("GCAL_CLIENT_ID", "google_calendar.client_id"),
    ("GCAL_CLIENT_SECRET", "google_calendar.client_secret"),
    ("GCAL_REFRESH_TOKEN", "google_calendar.refresh_token")
  ]

  datatype ConfigError =
    | ConfigNotFound               // ConfigNotFoundError: config.yml does not exist
    | MissingKey(message: string)  // MissingKeyError
    | NotAString(name: string)     // TypeError: ENV[name] assigned a value that is not a String

  /** Follows `keys` from `v` as `get` does: each step needs a Hash that has the key.
      `None` is where `get` raises. */
  function Resolve(v: Value, keys: seq<string>): Option<Value>
    decreases |keys|
  {
    if keys == [] then Some(v)
    else if HasKey(v, keys[0]) then Resolve(v.entries[keys[0]], keys[1..])
    else None
  }

  /** Resolving a path in two parts is resolving the second part from where the first ends. */
  lemma {:induction false} ResolveAppend(v: Value, a: seq<string>, b: seq<string>)
    ensures Resolve(v, a + b) == match Resolve(v, a) case None => None case Some(w) => Resolve(w, b)
    decreases |a|
  {
    if a == [] {
      assert a + b == b;
    } else {
      assert (a + b)[0] == a[0] && (a + b)[1..] == a[1..] + b;
      if HasKey(v, a[0]) {
        ResolveAppend(v.entries[a[0]], a[1..], b);
      }
    }
  }

  /** Segment `i` is where the walk stops: the first `i` segments resolve, and the value
      reached is not a Hash or lacks `keys[i]`. */
  predicate FailsAt(v: Value, keys: seq<string>, i: nat)
  {
    i < |keys| && Resolve(v, keys[..i]).Some? && !HasKey(Resolve(v, keys[..i]).value, keys[i])
  }

  /** The walk fails exactly when some segment is missing from the value reached before it. */
  lemma {:induction false} ResolveFailsIff(v: Value, keys: seq<string>)
    ensures Resolve(v, keys).None? <==> exists i: nat :: FailsAt(v, keys, i)
    decreases |keys|
  {
    if keys == [] {
      assert forall i: nat :: !FailsAt(v, keys, i);
    } else {
      assert keys[..0] == [];
      if HasKey(v, keys[0]) {
        var w := v.entries[keys[0]];
        ResolveFailsIff(w, keys[1..]);
        forall i: nat | i < |keys[1..]|
          ensures Resolve(v, keys[..i + 1]) == Resolve(w, keys[1..][..i])
          ensures keys[i + 1] == keys[1..][i]
        {
          assert keys[..i + 1] == [keys[0]] + keys[1..][..i];
          ResolveAppend(v, [keys[0]], keys[1..][..i]);
          assert [keys[0]][1..] == [];
        }
        if Resolve(v, keys).None? {
          var i: nat :| FailsAt(w, keys[1..], i);
          assert FailsAt(v, keys, i + 1);
        } else if exists i: nat :: FailsAt(v, keys, i) {
          var i: nat :| FailsAt(v, keys, i);
          assert i != 0;
          assert FailsAt(w, keys[1..], i - 1);
        }
      } else {
        assert FailsAt(v, keys, 0);
      }
    }
  }

  /** The walk stops at one segment only. */
  lemma FailureIsUnique(v: Value, keys: seq<string>, i: nat, j: nat)
    requires FailsAt(v, keys, i) && FailsAt(v, keys, j)
    ensures i == j
  {
    if i < j {
      ResolvePastFailure(v, keys, i, j);
    } else if j < i {
      ResolvePastFailure(v, keys, j, i);
    }
  }

  /** No longer prefix resolves once a segment has failed. */
  lemma ResolvePastFailure(v: Value, keys: seq<string>, i: nat, n: nat)
    requires FailsAt(v, keys, i) && i < n <= |keys|
    ensures Resolve(v, keys[..n]).None?
  {
    ResolveAppend(v, keys[..i], keys[i..n]);
    assert keys[..i] + keys[i..n] == keys[..n];
    assert keys[i..n][0] == keys[i];
  }

  /** What `get(path)` returns, or raises, once the tree is loaded. */
  function Lookup(tree: Value, path: string): Result<Value, ConfigError>
  {
    match Resolve(tree, Text.Split(path, '.'))
    case Some(v) => Success(v)
    case None => Failure(MissingKey("Config key not found: " + path))
  }

  /** A key that is present with value nil is returned as nil, not raised: when the path
      without its last segment reaches a Hash holding that segment as nil, `get` gives nil. */
  lemma PresentNilIsReturned(tree: Value, path: string, m: map<string, Value>)
    requires var ks := Text.Split(path, '.');
      ks != [] && Resolve(tree, ks[..|ks| - 1]) == Some(Hash(m)) && ks[|ks| - 1] in m && m[ks[|ks| - 1]] == Nil
    ensures Lookup(tree, path) == Success(Nil)
  {
    var ks := Text.Split(path, '.');
    var last := ks[|ks| - 1];
    assert ks == ks[..|ks| - 1] + [last];
    ResolveAppend(tree, ks[..|ks| - 1], [last]);
    assert [last][1..] == [];
  }

  /** A two-segment path whose leaf is nil is returned as nil, and so `validate!` reports
      it missing. */
  lemma NilLeafIsMissing(section: string, leaf: string)
    requires '.' !in section && '.' !in leaf && leaf != ""
    ensures var tree := Hash(map[section := Hash(map[leaf := Nil])]);
      Lookup(tree, section + ['.'] + leaf) == Success(Nil) && IsMissing(tree, section + ['.'] + leaf)
  {
    var tree := Hash(map[section := Hash(map[leaf := Nil])]);
    Text.SplitTwoFields(section, '.', leaf);
    assert [section, leaf][..1] == [section];
    PresentNilIsReturned(tree, section + ['.'] + leaf, map[leaf := Nil]);
  }

  /** For instance, `faktory.url: ~` in config.yml. */
  lemma NilFaktoryUrlIsMissing()
    ensures IsMissing(Hash(map["faktory" := Hash(map["url" := Nil])]), "faktory.url")
  {
    assert "faktory.url" == "faktory" + ['.'] + "url";
    NilLeafIsMissing("faktory", "url");
  }

  /** In `validate!`, a key is missing when `get` raises or returns nil. */
  predicate IsMissing(tree: Value, path: string)
  {
    Lookup(tree, path).Failure? || Lookup(tree, path) == Success(Nil)
  }

  /** The keys `validate!` reports: each missing key of `keys`, once, in the order of `keys`. */
  function MissingKeys(tree: Value, keys: seq<string>): (r: seq<string>)
    ensures forall k :: k in r ==> k in keys && IsMissing(tree, k)
    ensures forall k :: k in keys && IsMissing(tree, k) ==> k in r
    ensures Seqs.IsSubsequence(r, keys)
    ensures Seqs.Distinct(keys) ==> Seqs.Distinct(r)
  {
    var r := Seqs.Filter(keys, k => IsMissing(tree, k));
    assert Seqs.Distinct(keys) ==> Seqs.Distinct(r) by {
      if Seqs.Distinct(keys) { Seqs.SubsequenceOfDistinct(r, keys); }
    }
    r
  }

  function Bullets(keys: seq<string>): (r: seq<string>)
    ensures |r| == |keys| && forall i :: 0 <= i < |keys| ==> r[i] == "  - " + keys[i]
  {
    if keys == [] then [] else ["  - " + keys[0]] + Bullets(keys[1..])
  }

  function ValidationMessage(missing: seq<string>): string
  {
    "Missing required config keys:\n" + Text.Join(Bullets(missing), "\n") + "\nCheck workers/config.yml"
  }

  /** `validate!` on a loaded tree: passes exactly when every key resolves to a non-nil value;
      otherwise raises one error naming all missing keys. */
  function Validation(tree: Value, keys: seq<string>): (r: Outcome<ConfigError>)
    ensures r.Pass? <==> forall k :: k in keys ==> !IsMissing(tree, k)
    ensures r.Fail? ==> r.error == MissingKey(ValidationMessage(MissingKeys(tree, keys)))
  {
    var missing := MissingKeys(tree, keys);
    if missing == [] then Pass
    else
      assert missing[0] in missing;
      Fail(MissingKey(ValidationMessage(missing)))
  }

  lemma RequiredKeysAreDistinct()
    ensures Seqs.Distinct(RequiredKeys)
  {
  }

  datatype ExportStop =
    | Completed                // every assignment was attempted
    | Skipped                  // a MissingKeyError was rescued; later assignments never ran
    | Raised(error: ConfigError)

  datatype ExportState = ExportState(vars: map<string, string>, stop: ExportStop)

  /** `ENV[name] ||= get(key)` for each pair of `pending` in turn, on a loaded tree. */
  function Export(vars: map<string, string>, tree: Value, pending: seq<(string, string)>): (r: ExportState)
    ensures forall name :: name in vars ==> name in r.vars && r.vars[name] == vars[name]
    decreases |pending|
  {
    if pending == [] then ExportState(vars, Completed)
    else
      var name := pending[0].0;
      if name in vars then Export(vars, tree, pending[1..])  // `||=` does not even evaluate `get`
      else
        var found := Lookup(tree, pending[0].1);
        if found.Failure? then ExportState(vars, Skipped)
        else if found.value.Str? then Export(vars[name := found.value.s], tree, pending[1..])
        else if found.value.Nil? then Export(vars, tree, pending[1..])  // assigning nil deletes the unset variable
        else ExportState(vars, Raised(NotAString(name)))
  }

  /** Exporting in two parts: the second part runs, from the first part's variables, only if
      the first part completed. */
  lemma {:induction false} ExportAppend(vars: map<string, string>, tree: Value, a: seq<(string, string)>, b: seq<(string, string)>)
    ensures Export(vars, tree, a + b) ==
      if Export(vars, tree, a).stop.Completed? then Export(Export(vars, tree, a).vars, tree, b)
      else Export(vars, tree, a)
    decreases |a|
  {
    if a == [] {
      assert a + b == b;
    } else {
      assert (a + b)[0] == a[0] && (a + b)[1..] == a[1..] + b;
      var name := a[0].0;
      var found := Lookup(tree, a[0].1);
      if name in vars || (found.Success? && found.value.Nil?) {
        ExportAppend(vars, tree, a[1..], b);
      } else if found.Success? && found.value.Str? {
        ExportAppend(vars[name := found.value.s], tree, a[1..], b);
      }
    }
  }

  /** A missing key is swallowed: the assignments before it stay, none after it is made. */
  lemma MissingKeyStopsExport(vars: map<string, string>, tree: Value, before: seq<(string, string)>,
                              name: string, key: string, after: seq<(string, string)>)
    requires Export(vars, tree, before).stop.Completed?
    requires name !in Export(vars, tree, before).vars && Lookup(tree, key).Failure?
    ensures Export(vars, tree, before + [(name, key)] + after) == ExportState(Export(vars, tree, before).vars, Skipped)
  {
    ExportAppend(vars, tree, before, [(name, key)] + after);
    assert before + [(name, key)] + after == before + ([(name, key)] + after);
  }

  /** Walks `keys` from `root` one segment at a time, as the loop in `get` does. */
  method Walk(root: Value, keys: seq<string>) returns (r: Option<Value>)
    ensures r == Resolve(root, keys)
  {
    var value := root;
    var i := 0;
    while i < |keys|
      invariant 0 <= i <= |keys|
      invariant Resolve(root, keys) == Resolve(value, keys[i..])
    {
      assert keys[i..][1..] == keys[i + 1..];
      if HasKey(value, keys[i]) {
        value := value.entries[keys[i]];
      } else {
        return None;
      }
      i := i + 1;
    }
    return Some(value);
  }

  /** The assignments of `export_env!`, one pair of `pending` at a time, on a loaded tree. */
  method ExportPairs(env: Environment, tree: Value, pending: seq<(string, string)>) returns (r: Outcome<ConfigError>)
    modifies env
    ensures var e := Export(old(env.vars), tree, pending);
      env.vars == e.vars && r == (if e.stop.Raised? then Fail(e.stop.error) else Pass)
  {
    var i := 0;
    while i < |pending|
      invariant 0 <= i <= |pending|
      invariant Export(old(env.vars), tree, pending) == Export(env.vars, tree, pending[i..])
    {
      assert pending[i..][0] == pending[i] && pending[i..][1..] == pending[i + 1..];
      var (name, key) := pending[i];
      if name !in env.vars {
        var value := Lookup(tree, key);
        if value.Failure? {
          return Pass;
        } else if value.value.Str? {
          env.vars := env.vars[name := value.value.s];
        } else if value.value.Nil? {
          ghost var before := env.vars;
          env.vars := env.vars - {name};
          assert env.vars == before;  // deleting an unset variable changes nothing
        } else {
          return Fail(NotAString(name));
        }
      }
      i := i + 1;
    }
    assert pending[i..] == [];
    r := Pass;
  }

  /** The data after `load! unless @data`, when the load does not raise. */
  function Reloaded(data: Value, file: Option<Value>): Value
  {
    if Truthy(data) || file.None? then data else file.value
  }

  /** The process environment `ENV`. */
  class Environment {
    var vars: map<string, string>

    constructor (vars: map<string, string>)
      ensures this.vars == vars
    {
      this.vars := vars;
    }
  }

  /** The module-level state of `Config`: the `@data` cache, and the parsed content of
      config.yml (`None` when the file does not exist). */
  class Store {
    var data: Value
    const file: Option<Value>

    constructor (file: Option<Value>)
      ensures data == Nil && this.file == file
    {
      data := Nil;
      this.file := file;
    }

    /** `load!`: raises when config.yml is absent, otherwise replaces `@data` by its content. */
    method Load() returns (r: Outcome<ConfigError>)
      modifies this`data
      ensures file.None? ==> r == Fail(ConfigNotFound) && data == old(data)
      ensures file.Some? ==> r == Pass && data == file.value
    {
      if file.None? {
        return Fail(ConfigNotFound);
      }
      data := file.value;
      return Pass;
    }

    /** `get(path)`: loads when `@data` is nil, then walks the dotted path. */
    method Get(path: string) returns (r: Result<Value, ConfigError>)
      modifies this`data
      ensures data == Reloaded(old(data), file)
      ensures !Truthy(old(data)) && file.None? ==> r == Failure(ConfigNotFound)
      ensures Truthy(old(data)) || file.Some? ==> r == Lookup(data, path)
    {
      if !Truthy(data) {
        var loaded := Load();
        if loaded.Fail? {
          return Failure(loaded.error);
        }
      }
      var keys := Text.Split(path, '.');
      var found := Walk(data, keys);
      if found.Some? {
        r := Success(found.value);
      } else {
        r := Failure(MissingKey("Config key not found: " + path));
      }
    }

    /** `validate!`: loads when needed, then reports every missing required key at once. */
    method Validate() returns (r: Outcome<ConfigError>)
      modifies this`data
      ensures data == Reloaded(old(data), file)
      ensures !Truthy(old(data)) && file.None? ==> r == Fail(ConfigNotFound)
      ensures Truthy(old(data)) || file.Some? ==> r == Validation(data, RequiredKeys)
    {
      if !Truthy(data) {
        var loaded := Load();
        if loaded.Fail? {
          return loaded;
        }
      }
      // Each `get` in the select finds the tree loaded, or reloads the same file.
      r := Validation(data, RequiredKeys);
    }

    /** `export_env!`: sets each variable of `EnvExports` that is unset; a missing key ends
        the export silently; other errors propagate. */
    method ExportEnv(env: Environment) returns (r: Outcome<ConfigError>)
      modifies this`data, env
      ensures data == Reloaded(old(data), file)
      ensures !Truthy(old(data)) && file.None? ==> r == Fail(ConfigNotFound) && env.vars == old(env.vars)
      ensures Truthy(old(data)) || file.Some? ==>
        var e := Export(old(env.vars), data, EnvExports);
        env.vars == e.vars && r == (if e.stop.Raised? then Fail(e.stop.error) else Pass)
    {
      if !Truthy(data) {
        var loaded := Load();
        if loaded.Fail? {
          return loaded;
        }
      }
      r := ExportPairs(env, data, EnvExports);
    }

    /** `reset!`: forgets the loaded data, so the next access loads config.yml again. */
    method Reset()
      modifies this`data
      ensures data == Nil
    {
      data := Nil;
    }
  }
}
