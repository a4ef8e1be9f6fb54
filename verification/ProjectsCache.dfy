/** The per-user project list cache of the MCP server: objects that must not be shared, and how stale a list can be. */
module ProjectsCache {
  import opened Text

  /** The values of one project dict, by field. */
  type Fields = map<string, string>

  /** A dict object. Callers may change the fields of the ones they are given. */
  class Dict {
    var fields: Fields

    constructor (fields: Fields)
      ensures this.fields == fields
    {
      this.fields := fields;
    }
  }

  ghost function Contents(ds: seq<Dict>): (r: seq<Fields>)
    reads ds
    ensures |r| == |ds| && forall i | 0 <= i < |ds| :: r[i] == ds[i].fields
  {
    seq(|ds|, i requires 0 <= i < |ds| reads ds => ds[i].fields)
  }

  datatype Entry = Entry(fetchedAt: real, projects: seq<Dict>)

  /** What the cache holds for a user, as values. */
  datatype Cached = Cached(fetchedAt: real, projects: seq<Fields>)

  method CopyAll(ds: seq<Dict>) returns (copies: seq<Dict>)
    ensures forall d | d in copies :: fresh(d)
    ensures Contents(copies) == Contents(ds)
  {
    copies := [];
    for i := 0 to |ds|
      invariant |copies| == i && forall d | d in copies :: fresh(d)
      invariant forall j | 0 <= j < i :: copies[j].fields == ds[j].fields
    {
      var c := new Dict(ds[i].fields);
      copies := copies + [c];
    }
    assert Contents(copies) == Contents(ds);
  }

  class Cache {
    const ttl: real
    var entries: map<string, Entry>
    /** The dicts the cache owns; no caller ever sees one of them. */
    ghost var owned: set<Dict>

    ghost predicate Valid()
      reads this
    {
      forall u, d | u in entries && d in entries[u].projects :: d in owned
    }

    ghost function Held(user: string): Option<Cached>
      requires Valid()
      reads this, owned
    {
      if user in entries then Some(Cached(entries[user].fetchedAt, Contents(entries[user].projects))) else None
    }

    constructor (ttl: real)
      ensures this.ttl == ttl && Valid() && fresh(owned) && forall u :: Held(u) == None
    {
      this.ttl := ttl;
      entries := map[];
      owned := {};
    }

    method Get(user: string, now: real) returns (r: Option<seq<Dict>>)
      requires Valid()
      modifies this`entries
      ensures Valid() && owned == old(owned)
      ensures match old(Held(user))
              case None => r == None
              case Some(c) =>
                if now - c.fetchedAt >= ttl then r == None
                else r.Some? && Contents(r.value) == c.projects && forall d | d in r.value :: fresh(d)
      ensures forall u :: Held(u) == if u == user && r == None then None else old(Held(u))
    {
      if user !in entries {
        return None;
      }
      var entry := entries[user];
      if now - entry.fetchedAt >= ttl {
        entries := entries - {user};
        return None;
      }
      var copies := CopyAll(entry.projects);
      return Some(copies);
    }

    method Set(user: string, projects: seq<Dict>, now: real) returns (r: seq<Dict>)
      requires Valid()
      modifies this
      ensures Valid() && fresh(owned - old(owned)) && owned >= old(owned)
      ensures Contents(r) == old(Contents(projects)) && (forall d | d in r :: fresh(d) && d !in owned)
      ensures forall u :: Held(u) == if u == user then Some(Cached(now, old(Contents(projects)))) else old(Held(u))
    {
      var cached := CopyAll(projects);
      r := CopyAll(cached);
      entries := entries[user := Entry(now, cached)];
      owned := owned + set d | d in cached;
      forall u ensures Held(u) == if u == user then Some(Cached(now, Contents(cached))) else old(Held(u)) {
        if u != user && u in entries { assert Contents(entries[u].projects) == old(Contents(entries[u].projects)); }
      }
    }

    method Invalidate(user: string)
      requires Valid()
      modifies this`entries
      ensures Valid() && owned == old(owned)
      ensures forall u :: Held(u) == if u == user then None else old(Held(u))
    {
      entries := entries - {user};
    }
  }

  method BuildAll(rows: seq<Fields>) returns (ds: seq<Dict>)
    ensures Contents(ds) == rows && forall d | d in ds :: fresh(d)
  {
    ds := [];
    for i := 0 to |rows|
      invariant |ds| == i && forall d | d in ds :: fresh(d)
      invariant forall j | 0 <= j < i :: ds[j].fields == rows[j]
    {
      var d := new Dict(rows[i]);
      ds := ds + [d];
    }
    assert Contents(ds) == rows;
  }

  /** projects_fn: the cached list if it may be used, else what the database holds now, cached from now on. */
  method ProjectsFn(cache: Cache, user: string, refresh: bool, now: real, rows: seq<Fields>) returns (r: seq<Dict>)
    requires cache.Valid()
    modifies cache
    ensures cache.Valid() && forall d | d in r :: fresh(d) && d !in cache.owned
    ensures var held := old(cache.Held(user));
            var hit := !refresh && held.Some? && now - held.value.fetchedAt < cache.ttl;
            && Contents(r) == (if hit then held.value.projects else rows)
            && cache.Held(user) == if hit then held else Some(Cached(now, rows))
    ensures forall u | u != user :: cache.Held(u) == old(cache.Held(u))
  {
    if !refresh {
      var cached := cache.Get(user, now);
      if cached.Some? {
        return cached.value;
      }
    }
    var projects := BuildAll(rows);
    r := cache.Set(user, projects, now);
  }

  /** Changing the fields of a returned dict in any way changes nothing the cache holds. */
  method ScribbleOn(cache: Cache, d: Dict, junk: Fields)
    requires cache.Valid() && d !in cache.owned
    modifies d
    ensures cache.Valid() && forall u :: cache.Held(u) == old(cache.Held(u))
  {
    d.fields := junk;
    forall u ensures cache.Held(u) == old(cache.Held(u)) {
      if u in cache.entries {
        assert Contents(cache.entries[u].projects) == old(Contents(cache.entries[u].projects));
      }
    }
  }

  /** A list handed out, changed by its receiver, and asked for again: the second list is as the first one was. */
  method ScribbledListIsNotServed(cache: Cache, user: string, now: real, junk: Fields) returns (first: seq<Fields>, second: seq<Fields>)
    requires cache.Valid() && cache.Held(user).Some? && now - cache.Held(user).value.fetchedAt < cache.ttl
    modifies cache`entries
    ensures cache.Valid() && first == second == old(cache.Held(user)).value.projects
  {
    ghost var held := cache.Held(user);
    var a := cache.Get(user, now);
    var given := a.value;
    first := ReadAll(given);
    for i := 0 to |given|
      invariant cache.Valid() && cache.owned == old(cache.owned) && cache.Held(user) == held
      invariant forall d | d in given :: fresh(d) && d !in cache.owned
    {
      assert given[i] in given;
      ScribbleOn(cache, given[i], junk);
    }
    var b := cache.Get(user, now);
    second := ReadAll(b.value);
  }

  method ReadAll(ds: seq<Dict>) returns (r: seq<Fields>)
    ensures r == Contents(ds)
  {
    r := [];
    for i := 0 to |ds|
      invariant |r| == i && forall j | 0 <= j < i :: r[j] == ds[j].fields
    {
      r := r + [ds[i].fields];
    }
  }
}
