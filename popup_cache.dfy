/**
  The stylesheet cache of st3/styled_popup.py. `StyleSheetManager` keeps the decoded content
  of `User/scheme_styles.json` in memory once it has read it (`style_sheets`), and holds at
  most `cache_limit` schemes: adding one to a full cache first drops the entries with the
  oldest `time`. `get_stylesheet` recompiles a scheme whose entry is missing or whose digest
  has changed.

  The file is the field `file` (already decoded; None when it is missing or empty), the digest
  is the function `md5`, and the scheme's bytes, its decoded rules and the clock are
  parameters.
 */
module PopupCache {
  import opened Wrappers
  import opened StyleSheet
  import PopupBuilder

  type Bytes = seq<bv8>

  /** `{"content": ..., "hash": ..., "time": ...}` */
  datatype Entry = Entry(content: string, hash: string, time: int)

  datatype CacheError =
    | BuildFailed(error: PopupBuilder.BuildError)
      /** `keys[0]` on an empty list: a cache limit below one. */
    | NothingToDrop

  /** The `popup_style_cache_limit` setting, when it is not set. */
  const DefaultCacheLimit := 5

  /** The entries of `after` are entries of `before`, every entry dropped is at most as new
      as every entry kept, and exactly enough were dropped to leave room for one more. */
  predicate DroppedOldest(before: map<string, Entry>, after: map<string, Entry>, limit: int) {
    (forall k :: k in after ==> k in before && after[k] == before[k])
    && (forall e, k :: e in before && e !in after && k in after ==> before[e].time <= after[k].time)
    && |after| == if |before| >= limit then limit - 1 else |before|
  }

  /** The entries `add_stylesheet` builds on: the result of evicting when the cache is full,
      else the cache as it was. */
  predicate Evicted(before: map<string, Entry>, kept: map<string, Entry>, limit: int) {
    if |before| >= limit then DroppedOldest(before, kept, limit) else kept == before
  }

  /** `after` is `before` with room made as `drop_oldest_stylesheet` makes it, and then
      `scheme` set to `entry`. */
  ghost predicate AddedTo(before: map<string, Entry>, after: map<string, Entry>, scheme: string,
                    entry: Entry, limit: int) {
    exists kept :: Evicted(before, kept, limit) && after == kept[scheme := entry]
  }

  /** The entries kept by an eviction are old entries unchanged, `limit - 1` of them when the
      cache was full. */
  lemma EvictedKeeps(before: map<string, Entry>, kept: map<string, Entry>, limit: int)
    requires Evicted(before, kept, limit)
    ensures forall k :: k in kept ==> k in before && kept[k] == before[k]
    ensures |before| >= limit ==> |kept| == limit - 1
  {
  }

  /** What an add leaves: the scheme holds its new entry, every other entry is an old one
      unchanged, a full cache keeps exactly `limit - 1` old entries, the scheme's own among
      them or not (so `limit - 1` others when the scheme is new, and `limit - 1` or
      `limit - 2` when it was cached), and a cache with room keeps all of them. */
  lemma AddedToShape(before: map<string, Entry>, after: map<string, Entry>, scheme: string,
                     entry: Entry, limit: int)
    requires AddedTo(before, after, scheme, entry, limit)
    ensures scheme in after && after[scheme] == entry
    ensures forall k :: k in after && k != scheme ==> k in before && after[k] == before[k]
    ensures |before| >= limit ==> |after - {scheme}| == limit - 1 || |after - {scheme}| == limit - 2
    ensures |before| >= limit && scheme !in before ==> |after - {scheme}| == limit - 1
    ensures |before| < limit ==> after == before[scheme := entry]
  {
    var kept :| Evicted(before, kept, limit) && after == kept[scheme := entry];
    EvictedKeeps(before, kept, limit);
    forall k | k in after && k != scheme ensures k in before && after[k] == before[k] {
      assert k in kept;
    }
    if |before| >= limit {
      KeptSize(kept, scheme, entry);
    }
  }

  /** Without the new key, the map after an add is the kept map without that key. */
  lemma KeptSize(kept: map<string, Entry>, scheme: string, entry: Entry)
    ensures |kept[scheme := entry] - {scheme}| == if scheme in kept then |kept| - 1 else |kept|
  {
    if scheme in kept {
      RemoveOne(kept, scheme);
      assert kept[scheme := entry] - {scheme} == kept - {scheme};
    } else {
      assert kept[scheme := entry] - {scheme} == kept;
    }
  }

  class StyleSheetManager {
    /** `self.style_sheets`: the entries read so far; empty until the first read. */
    var styleSheets: map<string, Entry>
    /** The decoded content of `scheme_styles.json`; None when it is missing or empty. */
    var file: Option<map<string, Entry>>
    const cacheLimit: int
    /** `hashlib.md5(content).hexdigest()` */
    const md5: Bytes -> string

    /** `StyleSheetManager()`: nothing read yet; the limit comes from the settings. */
    constructor(file: Option<map<string, Entry>>, limitSetting: Option<int>, md5: Bytes -> string)
      ensures styleSheets == map[] && this.file == file && this.md5 == md5
      ensures cacheLimit == if limitSetting.Some? then limitSetting.value else DefaultCacheLimit
    {
      styleSheets := map[];
      this.file := file;
      cacheLimit := if limitSetting.Some? then limitSetting.value else DefaultCacheLimit;
      this.md5 := md5;
    }

    /** What `get_stylesheets` returns: the entries in memory, or the file's when memory is
        empty. Reading the file into memory does not change it, so the queries below, which
        read it on the way in the source, are functions of it. */
    function Current(): map<string, Entry>
      reads this
    {
      if |styleSheets| == 0 && file.Some? then file.value else styleSheets
    }

    /** `get_stylesheets`: read the file into memory when memory is empty. */
    method GetStylesheets() returns (r: map<string, Entry>)
      modifies this
      ensures r == old(Current()) && styleSheets == r && file == old(file)
      ensures Current() == old(Current())
    {
      if |styleSheets| == 0 {
        if file.Some? {
          styleSheets := file.value;
        }
      }
      return styleSheets;
    }

    /** `count_stylesheets` */
    function CountStylesheets(): nat
      reads this
    {
      |Current()|
    }

    /** `has_stylesheet` */
    predicate HasStylesheet(colorScheme: string)
      reads this
    {
      colorScheme in Current()
    }

    /** The stored digest, or `""` for a scheme without an entry. */
    function StoredHash(colorScheme: string): string
      reads this
    {
      if colorScheme in Current() then Current()[colorScheme].hash else ""
    }

    /** `is_file_hash_stale`. Despite its name it is true when the stored digest EQUALS the
        digest of the scheme's current bytes. */
    predicate IsFileHashStale(colorScheme: string, schemeBytes: Bytes)
      reads this
    {
      md5(schemeBytes) == StoredHash(colorScheme)
    }

    /** `is_stylesheet_parsed_and_current`: the scheme has an entry and its digest is the
        current one. */
    function IsStylesheetParsedAndCurrent(colorScheme: string, schemeBytes: Bytes): (r: bool)
      reads this
      ensures r <==> colorScheme in Current() && Current()[colorScheme].hash == md5(schemeBytes)
    {
      if !HasStylesheet(colorScheme) || !IsFileHashStale(colorScheme, schemeBytes) then false else true
    }

    /** `save_stylesheets`: write the map to the file and keep it in memory. */
    method SaveStylesheets(s: map<string, Entry>)
      modifies this
      ensures file == Some(s) && styleSheets == s
      ensures Current() == s
    {
      file := Some(s);
      styleSheets := s;
    }

    /** `drop_oldest_stylesheet`: delete the entry with the oldest time until fewer than
        `cache_limit` remain, then save. `sorted(style_sheets, key=sortByTime)` puts the keys
        in ascending time order and each round deletes the first of the rest, which is an
        entry of least time among those left. With a limit below one the loop runs the keys
        out: every entry in memory is gone, `keys[0]` raises IndexError and nothing is saved. */
    method DropOldestStylesheet() returns (r: Result<(), CacheError>)
      modifies this
      ensures r.Ok? <==> cacheLimit >= 1
      ensures r.Ok? ==> file == Some(styleSheets) && DroppedOldest(old(Current()), styleSheets, cacheLimit)
      ensures r.Err? ==> r == Err(NothingToDrop) && styleSheets == map[] && file == old(file)
    {
      var ss := GetStylesheets();
      ghost var start := ss;
      while |ss| >= cacheLimit
        invariant forall k :: k in ss ==> k in start && ss[k] == start[k]
        invariant forall e, k :: e in start && e !in ss && k in ss ==> start[e].time <= ss[k].time
        invariant ss == start || |ss| >= cacheLimit - 1
        invariant |ss| <= |start|
        invariant file == old(file)
        decreases |ss|
      {
        if |ss| == 0 {
          styleSheets := ss;
          assert ss == map[];
          return Err(NothingToDrop);
        }
        OldestExists(ss);
        var oldest :| oldest in ss && forall k :: k in ss ==> ss[oldest].time <= ss[k].time;
        RemoveOne(ss, oldest);
        ss := ss - {oldest};
      }
      assert cacheLimit >= 1;
      SaveStylesheets(ss);
      return Ok(());
    }

    /** `add_stylesheet`: make room when the cache is full, then store the content with the
        current digest and time, and save. */
    method AddStylesheet(colorScheme: string, content: string, schemeBytes: Bytes, now: int)
      returns (r: Result<(), CacheError>)
      modifies this
      ensures r.Ok? <==> cacheLimit >= 1
      ensures r.Err? ==> styleSheets == map[] && file == old(file)
      ensures r.Ok? ==> file == Some(styleSheets) && Current() == styleSheets
      ensures r.Ok? ==> (colorScheme in Current()
                         && Current()[colorScheme] == Entry(content, md5(schemeBytes), now))
      ensures r.Ok? ==> |Current()| <= cacheLimit
      ensures r.Ok? ==> forall k :: k in Current() && k != colorScheme
                          ==> k in old(Current()) && Current()[k] == old(Current())[k]
      ensures r.Ok? ==> forall e, k ::
                          (e in old(Current()) && e !in Current() && k in Current() && k != colorScheme)
                          ==> old(Current())[e].time <= Current()[k].time
      ensures r.Ok? && |old(Current())| < cacheLimit
        ==> Current() == old(Current())[colorScheme := Entry(content, md5(schemeBytes), now)]
      ensures r.Ok? ==> AddedTo(old(Current()), Current(), colorScheme,
                                Entry(content, md5(schemeBytes), now), cacheLimit)
    {
      var styleSheets' := GetStylesheets();
      if CountStylesheets() >= cacheLimit {
        var dropped := DropOldestStylesheet();
        if dropped.Err? {
          return dropped;
        }
        styleSheets' := styleSheets;
      }
      ghost var kept := styleSheets';
      var fileHash := md5(schemeBytes);
      assert Evicted(old(Current()), kept, cacheLimit);
      styleSheets' := styleSheets'[colorScheme := Entry(content, fileHash, now)];
      CardUpdate(kept, colorScheme, Entry(content, fileHash, now));
      SaveStylesheets(styleSheets');
      return Ok(());
    }

    /** `get_stylesheet`: recompile the scheme unless its entry is current, then return the
        entry. `rules` is the decoded `rules` array of the scheme; an error of the compiler or
        of the eviction propagates. */
    method GetStylesheet(colorScheme: string, schemeBytes: Bytes, rules: seq<PopupBuilder.Rule>, now: int)
      returns (r: Result<Entry, CacheError>)
      modifies this
      ensures r.Ok? ==> (colorScheme in Current() && r.value == Current()[colorScheme]
                         && r.value.hash == md5(schemeBytes))
      ensures old(IsStylesheetParsedAndCurrent(colorScheme, schemeBytes))
        ==> r == Ok(old(Current())[colorScheme]) && Current() == old(Current()) && file == old(file)
      ensures !old(IsStylesheetParsedAndCurrent(colorScheme, schemeBytes))
        ==> (r.Err? <==> PopupBuilder.Build(rules).Err? || cacheLimit < 1)
      ensures !old(IsStylesheetParsedAndCurrent(colorScheme, schemeBytes)) && r.Ok?
        ==> r.value == Entry(Serialize(PopupBuilder.Build(rules).value), md5(schemeBytes), now)
      ensures !old(IsStylesheetParsedAndCurrent(colorScheme, schemeBytes)) && r.Ok?
        ==> file == Some(Current()) && AddedTo(old(Current()), Current(), colorScheme, r.value, cacheLimit)
      ensures !old(IsStylesheetParsedAndCurrent(colorScheme, schemeBytes)) && PopupBuilder.Build(rules).Err?
        ==> Current() == old(Current()) && file == old(file)
      ensures !old(IsStylesheetParsedAndCurrent(colorScheme, schemeBytes)) && PopupBuilder.Build(rules).Ok? && cacheLimit < 1
        ==> styleSheets == map[] && file == old(file)
    {
      if !IsStylesheetParsedAndCurrent(colorScheme, schemeBytes) {
        var schemeCss := PopupBuilder.ParseScheme(rules);
        if schemeCss.Err? {
          return Err(BuildFailed(schemeCss.error));
        }
        var added := AddStylesheet(colorScheme, schemeCss.value, schemeBytes, now);
        if added.Err? {
          return Err(added.error);
        }
      }
      var activeSheets := GetStylesheets();
      return Ok(activeSheets[colorScheme]);
    }
  }

  /** A non-empty cache has an entry of least time. */
  lemma OldestExists(m: map<string, Entry>)
    requires |m| > 0
    ensures exists o :: o in m && forall k :: k in m ==> m[o].time <= m[k].time
    decreases |m|
  {
    var a :| a in m;
    if |m| == 1 {
      assert m.Keys == {a} by {
        forall k | k in m ensures k == a {
          if k != a {
            assert {a, k} <= m.Keys;
            assert |{a, k}| == 2;
            CardSubset({a, k}, m.Keys);
          }
        }
      }
      assert forall k :: k in m ==> m[a].time <= m[k].time;
    } else {
      var rest := m - {a};
      RemoveOne(m, a);
      OldestExists(rest);
      var o :| o in rest && forall k :: k in rest ==> rest[o].time <= rest[k].time;
      if m[a].time < m[o].time {
        assert forall k :: k in m ==> m[a].time <= m[k].time by {
          forall k | k in m ensures m[a].time <= m[k].time {
            if k != a {
              assert k in rest;
            }
          }
        }
      } else {
        assert forall k :: k in m ==> m[o].time <= m[k].time by {
          forall k | k in m ensures m[o].time <= m[k].time {
            if k != a {
              assert k in rest;
            }
          }
        }
      }
    }
  }

  lemma CardSubset(a: set<string>, b: set<string>)
    requires a <= b
    ensures |a| <= |b|
  {
    assert b == a + (b - a);
  }

  /** Deleting a key that is present removes exactly one entry. */
  lemma RemoveOne(m: map<string, Entry>, k: string)
    requires k in m
    ensures |m - {k}| == |m| - 1
  {
    assert (m - {k}).Keys == m.Keys - {k};
    assert m.Keys == (m.Keys - {k}) + {k};
  }

  /** Storing a key adds an entry only when it is new. */
  lemma CardUpdate(m: map<string, Entry>, k: string, v: Entry)
    ensures |m[k := v]| == if k in m then |m| else |m| + 1
  {
    if k in m {
      assert m[k := v].Keys == m.Keys;
    } else {
      assert m[k := v].Keys == m.Keys + {k};
    }
  }
}
