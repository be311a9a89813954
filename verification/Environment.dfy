/** zed-extension/src/lib.rs, `merge_environment`, `upsert_env_var`, `ensure_env_var`: the environment
    the language server is started with. */
module Environment {
  import opened Protocol
  import opened HashOrder

  datatype Entry = Entry(key: string, value: string)

  datatype Mode = Native | Bridge(socket: string, session: string)

  const ENV_BRIDGE_SOCKET := "ISABELLE_BRIDGE_SOCKET"
  const ENV_SESSION := "ISABELLE_SESSION"
  const ENV_BRIDGE_AUTOSTART_CMD := "ISABELLE_BRIDGE_AUTOSTART_CMD"
  const ENV_BRIDGE_AUTOSTART_TIMEOUT_MS := "ISABELLE_BRIDGE_AUTOSTART_TIMEOUT_MS"

  predicate Restricted(key: string) {
    key == ENV_BRIDGE_AUTOSTART_CMD || key == ENV_BRIDGE_AUTOSTART_TIMEOUT_MS
  }

  /** The value of the first entry for `key`. */
  function Lookup(env: seq<Entry>, key: string): Option<string> {
    if env == [] then None
    else if env[0].key == key then Some(env[0].value)
    else Lookup(env[1..], key)
  }

  function Upserted(env: seq<Entry>, key: string, value: string): seq<Entry> {
    if env == [] then [Entry(key, value)]
    else if env[0].key == key then [Entry(key, value)] + env[1..]
    else [env[0]] + Upserted(env[1..], key, value)
  }

  function Ensured(env: seq<Entry>, key: string, value: string): seq<Entry> {
    if Lookup(env, key).Some? then env else env + [Entry(key, value)]
  }

  function Merged(env: seq<Entry>, overrides: map<string, string>, order: seq<string>): seq<Entry>
    requires forall k | k in order :: k in overrides
  {
    if order == [] then env
    else
      var key := order[|order| - 1];
      var before := Merged(env, overrides, order[..|order| - 1]);
      if Restricted(key) then before else Upserted(before, key, overrides[key])
  }

  function Resolved(env: seq<Entry>, overrides: map<string, string>, order: seq<string>, mode: Mode): seq<Entry>
    requires forall k | k in order :: k in overrides
  {
    var merged := Merged(env, overrides, order);
    match mode
    case Native => merged
    case Bridge(socket, session) => Ensured(Ensured(merged, ENV_BRIDGE_SOCKET, socket), ENV_SESSION, session)
  }

  /** The first entry for the key, at `i`, is rewritten; without one an entry is appended. */
  lemma {:induction false} UpsertedAt(env: seq<Entry>, key: string, value: string, i: nat)
    requires i <= |env| && (forall j | 0 <= j < i :: env[j].key != key) && (i < |env| ==> env[i].key == key)
    ensures Upserted(env, key, value)
         == if i < |env| then env[i := Entry(key, value)] else env + [Entry(key, value)]
  {
    if i > 0 {
      UpsertedAt(env[1..], key, value, i - 1);
      assert env == [env[0]] + env[1..];
    }
  }

  class Variables {
    var entries: seq<Entry>

    constructor (entries: seq<Entry>)
      ensures this.entries == entries
    {
      this.entries := entries;
    }

    method Upsert(key: string, value: string)
      modifies this
      ensures entries == Upserted(old(entries), key, value)
    {
      var i := 0;
      while i < |entries|
        invariant 0 <= i <= |entries| && entries == old(entries)
        invariant forall j | 0 <= j < i :: entries[j].key != key
      {
        if entries[i].key == key {
          UpsertedAt(entries, key, value, i);
          entries := entries[i := Entry(key, value)];
          return;
        }
        i := i + 1;
      }
      UpsertedAt(entries, key, value, i);
      entries := entries + [Entry(key, value)];
    }

    method Ensure(key: string, value: string)
      modifies this
      ensures entries == Ensured(old(entries), key, value)
    {
      var i := 0;
      while i < |entries|
        invariant 0 <= i <= |entries| && entries == old(entries)
        invariant Lookup(entries, key) == Lookup(entries[i..], key)
      {
        if entries[i].key == key {
          return;
        }
        i := i + 1;
      }
      entries := entries + [Entry(key, value)];
    }

    method Merge(overrides: map<string, string>) returns (ghost order: seq<string>)
      modifies this
      ensures Walks(order, overrides.Keys) && entries == Merged(old(entries), overrides, order)
    {
      var keys := InSomeOrder(overrides.Keys);
      order := keys;
      for i := 0 to |keys|
        invariant entries == Merged(old(entries), overrides, keys[..i])
      {
        assert keys[..i + 1][..i] == keys[..i];
        if !Restricted(keys[i]) {
          Upsert(keys[i], overrides[keys[i]]);
        }
      }
      assert keys[..|keys|] == keys;
    }

    method Resolve(overrides: Option<map<string, string>>, mode: Mode) returns (ghost order: seq<string>)
      modifies this
      ensures Walks(order, Chosen(overrides).Keys)
      ensures entries == Resolved(old(entries), Chosen(overrides), order, mode)
    {
      order := [];
      if overrides.Some? {
        order := Merge(overrides.value);
      }
      if mode.Bridge? {
        Ensure(ENV_BRIDGE_SOCKET, mode.socket);
        Ensure(ENV_SESSION, mode.session);
      }
    }
  }

  function Chosen(overrides: Option<map<string, string>>): map<string, string> {
    if overrides.Some? then overrides.value else map[]
  }

  // ---------------------------------------------------------------------------------------------
  // What a reader of the environment sees
  // ---------------------------------------------------------------------------------------------

  lemma {:induction false} UpsertedLookup(env: seq<Entry>, key: string, value: string, k: string)
    ensures Lookup(Upserted(env, key, value), k) == if k == key then Some(value) else Lookup(env, k)
  {
    if env != [] && env[0].key != key {
      UpsertedLookup(env[1..], key, value, k);
    }
  }

  lemma {:induction false} AppendedLookup(env: seq<Entry>, entry: Entry, k: string)
    ensures Lookup(env + [entry], k)
         == if Lookup(env, k).Some? then Lookup(env, k) else if k == entry.key then Some(entry.value) else None
  {
    if env != [] {
      assert (env + [entry])[1..] == env[1..] + [entry];
      AppendedLookup(env[1..], entry, k);
    }
  }

  lemma {:induction false} MergedLookup(env: seq<Entry>, overrides: map<string, string>, order: seq<string>, k: string)
    requires forall o | o in order :: o in overrides
    ensures Lookup(Merged(env, overrides, order), k)
         == if k in order && !Restricted(k) then Some(overrides[k]) else Lookup(env, k)
  {
    if order != [] {
      var front, last := order[..|order| - 1], order[|order| - 1];
      assert order == front + [last];
      MergedLookup(env, overrides, front, k);
      UpsertedLookup(Merged(env, overrides, front), last, overrides[last], k);
    }
  }

  /** What the started server reads for a key: an unrestricted override, else the shell's value, else
      in bridge mode the default for the two bridge variables. */
  ghost function Seen(env: seq<Entry>, overrides: map<string, string>, mode: Mode, k: string): Option<string> {
    if k in overrides && k != "ISABELLE_BRIDGE_AUTOSTART_CMD" && k != "ISABELLE_BRIDGE_AUTOSTART_TIMEOUT_MS"
    then Some(overrides[k])
    else if Lookup(env, k).Some? then Lookup(env, k)
    else if mode.Bridge? && k == "ISABELLE_BRIDGE_SOCKET" then Some(mode.socket)
    else if mode.Bridge? && k == "ISABELLE_SESSION" then Some(mode.session)
    else None
  }

  /** Every key reads as specified, in whatever order the override table is walked. */
  lemma ResolvedLookup(env: seq<Entry>, overrides: map<string, string>, order: seq<string>, mode: Mode, k: string)
    requires Walks(order, overrides.Keys)
    ensures Lookup(Resolved(env, overrides, order, mode), k) == Seen(env, overrides, mode, k)
  {
    var merged := Merged(env, overrides, order);
    MergedLookup(env, overrides, order, k);
    if mode.Bridge? {
      var first := Ensured(merged, ENV_BRIDGE_SOCKET, mode.socket);
      AppendedLookup(merged, Entry(ENV_BRIDGE_SOCKET, mode.socket), k);
      AppendedLookup(first, Entry(ENV_SESSION, mode.session), k);
      assert ENV_BRIDGE_SOCKET[9] != ENV_SESSION[9];
    }
  }

  /** And so for settings that may have no override table at all: then every key reads as the shell's. */
  lemma OptionalLookup(env: seq<Entry>, overrides: Option<map<string, string>>, order: seq<string>, mode: Mode,
                       k: string)
    requires Walks(order, Chosen(overrides).Keys)
    ensures
      Lookup(Resolved(env, Chosen(overrides), order, mode), k)
      == match overrides
         case None => Seen(env, map[], mode, k)
         case Some(table) => Seen(env, table, mode, k)
  {
    ResolvedLookup(env, Chosen(overrides), order, mode, k);
  }

  // ----- duplicates -----

  /** The value of the last entry for `key`: what a reader that collects the entries into a table sees. */
  function LastLookup(env: seq<Entry>, key: string): Option<string> {
    if env == [] then None
    else if env[|env| - 1].key == key then Some(env[|env| - 1].value)
    else LastLookup(env[..|env| - 1], key)
  }

  ghost predicate KeysDistinct(env: seq<Entry>) {
    forall i, j | 0 <= i < j < |env| :: env[i].key != env[j].key
  }

  lemma {:induction false} LookupFinds(env: seq<Entry>, k: string) returns (i: nat)
    ensures Lookup(env, k).None? <==> i == |env|
    ensures i <= |env| && forall j | 0 <= j < i :: env[j].key != k
    ensures i < |env| ==> env[i] == Entry(k, Lookup(env, k).value)
  {
    if env == [] || env[0].key == k {
      i := 0;
    } else {
      var rest := LookupFinds(env[1..], k);
      i := rest + 1;
    }
  }

  lemma UpsertedPlaces(env: seq<Entry>, key: string, value: string) returns (i: nat)
    ensures i <= |env| && (forall j | 0 <= j < i :: env[j].key != key) && (i < |env| ==> env[i].key == key)
    ensures Upserted(env, key, value)
         == if i < |env| then env[i := Entry(key, value)] else env + [Entry(key, value)]
  {
    i := LookupFinds(env, key);
    UpsertedAt(env, key, value, i);
  }

  lemma {:induction false} MergedDistinct(env: seq<Entry>, overrides: map<string, string>, order: seq<string>)
    requires forall o | o in order :: o in overrides
    requires KeysDistinct(env)
    ensures KeysDistinct(Merged(env, overrides, order))
  {
    if order != [] {
      var front, last := order[..|order| - 1], order[|order| - 1];
      MergedDistinct(env, overrides, front);
      var _ := UpsertedPlaces(Merged(env, overrides, front), last, overrides[last]);
    }
  }

  lemma EnsuredDistinct(env: seq<Entry>, key: string, value: string)
    requires KeysDistinct(env)
    ensures KeysDistinct(Ensured(env, key, value))
  {
    var _ := LookupFinds(env, key);
  }

  /** The entries for one key, in order. */
  function ForKey(env: seq<Entry>, k: string): seq<Entry> {
    if env == [] then []
    else if env[0].key == k then [env[0]] + ForKey(env[1..], k)
    else ForKey(env[1..], k)
  }

  function RestOf(entries: seq<Entry>): seq<Entry> {
    if entries == [] then [] else entries[1..]
  }

  lemma {:induction false} UpsertedForKey(env: seq<Entry>, key: string, value: string, k: string)
    ensures ForKey(Upserted(env, key, value), k)
         == if k == key then [Entry(k, value)] + RestOf(ForKey(env, k)) else ForKey(env, k)
  {
    if env != [] {
      var upserted := Upserted(env, key, value);
      if env[0].key == key {
        assert upserted[1..] == env[1..];
      } else {
        assert upserted[1..] == Upserted(env[1..], key, value);
        UpsertedForKey(env[1..], key, value, k);
      }
    }
  }

  /** What merging does to the entries of one key, whatever the order. */
  lemma {:induction false} MergedForKey(env: seq<Entry>, overrides: map<string, string>, order: seq<string>, k: string)
    requires forall o | o in order :: o in overrides
    ensures ForKey(Merged(env, overrides, order), k)
         == if k in order && !Restricted(k) then [Entry(k, overrides[k])] + RestOf(ForKey(env, k)) else ForKey(env, k)
  {
    if order != [] {
      var front, last := order[..|order| - 1], order[|order| - 1];
      assert order == front + [last];
      MergedForKey(env, overrides, front, k);
      UpsertedForKey(Merged(env, overrides, front), last, overrides[last], k);
    }
  }

  lemma {:induction false} AppendedForKey(env: seq<Entry>, entry: Entry, k: string)
    ensures ForKey(env + [entry], k) == ForKey(env, k) + (if entry.key == k then [entry] else [])
  {
    if env != [] {
      assert (env + [entry])[1..] == env[1..] + [entry];
      AppendedForKey(env[1..], entry, k);
    }
  }

  lemma {:induction false} ForKeyCounts(env: seq<Entry>, e: Entry)
    ensures multiset(env)[e] == multiset(ForKey(env, e.key))[e]
    ensures Lookup(env, e.key).None? <==> ForKey(env, e.key) == []
  {
    if env != [] {
      assert env == [env[0]] + env[1..];
      ForKeyCounts(env[1..], e);
    }
  }

  lemma EnsuredForKey(a: seq<Entry>, b: seq<Entry>, key: string, value: string)
    requires forall k :: ForKey(a, k) == ForKey(b, k)
    ensures forall k :: ForKey(Ensured(a, key, value), k) == ForKey(Ensured(b, key, value), k)
  {
    var entry := Entry(key, value);
    ForKeyCounts(a, entry);
    ForKeyCounts(b, entry);
    forall k
      ensures ForKey(Ensured(a, key, value), k) == ForKey(Ensured(b, key, value), k)
    {
      AppendedForKey(a, entry, k);
      AppendedForKey(b, entry, k);
    }
  }

  /** Any two walks of the override table give the same entries, each as often, whatever the shell's
      environment; and for every key they are in the same order. */
  lemma MergeIgnoresOrder(env: seq<Entry>, overrides: map<string, string>, a: seq<string>, b: seq<string>, mode: Mode,
                          x: seq<Entry>, y: seq<Entry>)
    requires Walks(a, overrides.Keys) && Walks(b, overrides.Keys)
    requires x == Resolved(env, overrides, a, mode) && y == Resolved(env, overrides, b, mode)
    ensures multiset(x) == multiset(y) && forall k :: ForKey(x, k) == ForKey(y, k)
  {
    var p, q := Merged(env, overrides, a), Merged(env, overrides, b);
    forall k
      ensures ForKey(p, k) == ForKey(q, k)
    {
      MergedForKey(env, overrides, a, k);
      MergedForKey(env, overrides, b, k);
    }
    if mode.Bridge? {
      EnsuredForKey(p, q, ENV_BRIDGE_SOCKET, mode.socket);
      EnsuredForKey(Ensured(p, ENV_BRIDGE_SOCKET, mode.socket), Ensured(q, ENV_BRIDGE_SOCKET, mode.socket),
                    ENV_SESSION, mode.session);
    }
    SameCounts(x, y);
  }

  lemma SameCounts(x: seq<Entry>, y: seq<Entry>)
    requires forall k :: ForKey(x, k) == ForKey(y, k)
    ensures multiset(x) == multiset(y)
  {
    forall e: Entry
      ensures multiset(x)[e] == multiset(y)[e]
    {
      ForKeyCounts(x, e);
      ForKeyCounts(y, e);
    }
  }

  /** With distinct shell keys no key is repeated. */
  lemma ResolvedDistinct(env: seq<Entry>, overrides: map<string, string>, order: seq<string>, mode: Mode)
    requires Walks(order, overrides.Keys) && KeysDistinct(env)
    ensures KeysDistinct(Resolved(env, overrides, order, mode))
  {
    MergedDistinct(env, overrides, order);
    if mode.Bridge? {
      var merged := Merged(env, overrides, order);
      EnsuredDistinct(merged, ENV_BRIDGE_SOCKET, mode.socket);
      EnsuredDistinct(Ensured(merged, ENV_BRIDGE_SOCKET, mode.socket), ENV_SESSION, mode.session);
    }
  }

  lemma {:induction false} LastLookupAppend(env: seq<Entry>, e: Entry, k: string)
    ensures LastLookup(env + [e], k) == if e.key == k then Some(e.value) else LastLookup(env, k)
  {
    assert (env + [e])[..|env|] == env;
  }

  lemma {:induction false} LastLookupFinds(env: seq<Entry>, k: string) returns (i: int)
    ensures -1 <= i < |env| && (forall j | i < j < |env| :: env[j].key != k)
    ensures LastLookup(env, k) == if i == -1 then None else Some(env[i].value)
    ensures i >= 0 ==> env[i].key == k
  {
    if env == [] {
      i := -1;
    } else if env[|env| - 1].key == k {
      i := |env| - 1;
    } else {
      i := LastLookupFinds(env[..|env| - 1], k);
    }
  }

  /** Overriding one key reaches a reader that takes the last entry exactly when the environment does
      not end on a second, different entry for that key: an override rewrites only the first. */
  lemma LastReaderIff(env: seq<Entry>, key: string, value: string)
    ensures LastLookup(Upserted(env, key, value), key) == Some(value)
       <==> (|| LastLookup(env, key) == Some(value)
             || forall i, j | 0 <= i < j < |env| :: env[i].key != key || env[j].key != key)
  {
    var i := UpsertedPlaces(env, key, value);
    var last := LastLookupFinds(env, key);
    if i == |env| {
      LastLookupAppend(env, Entry(key, value), key);
    } else {
      var upserted := Upserted(env, key, value);
      assert forall j | 0 <= j < |env| :: upserted[j].key == env[j].key;
      var after := LastLookupFinds(upserted, key);
      assert after == last;
      if i < last {
        assert env[i].key == key && env[last].key == key;
      }
    }
  }
}
