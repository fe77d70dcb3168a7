/** Cleaning up the avatar cache: first what does not belong there, then by number, then by age, the
    oldest files first. */
module AvatarCache {

  datatype MD5Buf = MD5Buf(data: seq<nat>)

  type AvatarMap = map<MD5Buf, string>

  /** Files by time, equal times in the order of insertion. */
  type TimeAvatarMap = seq<(int, MD5Buf)>

  /** What the file system says about a cached file: it is gone or not named after a hash; or it was
      last written at some time; or the question fails. */
  datatype Probe = NotKept | Written(time: int) | Fails

  predicate InDirectory(file: string, dir: string) {
    |file| > |dir| && file[..|dir|] == dir && file[|dir|] == '/'
  }

  /** The answer for a cached file: only files that are certainly in the cache directory are asked for. */
  function Asked(file: string, dir: string, probe: string -> Probe): Probe {
    if InDirectory(file, dir) then probe(file) else NotKept
  }

  predicate TooOld(time: int, curTime: int, maxAge: int) {
    !(curTime <= time || curTime - time < maxAge)
  }

  /** The entries that survive the first pass. */
  function Survivors(was: AvatarMap, dir: string, probe: string -> Probe): AvatarMap {
    map k | k in was && Asked(was[k], dir, probe).Written? :: was[k]
  }

  function Times(was: AvatarMap, dir: string, probe: string -> Probe): MD5Buf -> int {
    (k: MD5Buf) => if k in was && Asked(was[k], dir, probe).Written? then Asked(was[k], dir, probe).time else 0
  }

  // ---------------------------------------------------------------------------------------------
  // What a cleanup may keep.

  /** The rule for what is retained of the survivors: the youngest, none of them too old, at most half
      the limit if there were more than the limit, and nothing is lost that does not have to be. */
  ghost predicate Retains(all: AvatarMap, time: MD5Buf -> int, kept: AvatarMap, curTime: int, maxFiles: nat, maxAge: int) {
    && (forall k :: k in kept ==> k in all && kept[k] == all[k])
    && (forall e, r :: e in all && e !in kept && r in kept ==> time(e) <= time(r))
    && (forall r :: r in kept ==> !TooOld(time(r), curTime, maxAge))
    && (|all| > maxFiles ==> |kept| <= maxFiles / 2)
    && ((|all| <= maxFiles || |kept| < maxFiles / 2) ==> forall e :: e in all && e !in kept ==> TooOld(time(e), curTime, maxAge))
  }

  /** Within the limits nothing is evicted. */
  lemma NothingLostWithinLimits(all: AvatarMap, time: MD5Buf -> int, kept: AvatarMap, curTime: int, maxFiles: nat, maxAge: int)
    requires Retains(all, time, kept, curTime, maxFiles, maxAge)
    requires |all| <= maxFiles && forall k :: k in all ==> curTime <= time(k) || curTime - time(k) < maxAge
    ensures kept == all
  {
    assert forall k :: k in all ==> k in kept;
  }

  /** The rule leaves no freedom when no two files are of the same time. */
  lemma RetainedAreDetermined(all: AvatarMap, time: MD5Buf -> int, a: AvatarMap, b: AvatarMap, curTime: int, maxFiles: nat, maxAge: int)
    requires Retains(all, time, a, curTime, maxFiles, maxAge) && Retains(all, time, b, curTime, maxFiles, maxAge)
    requires forall k, l :: k in all && l in all && time(k) == time(l) ==> k == l
    ensures a == b
  {
    var half := maxFiles / 2;
    if |all| <= maxFiles || |a| < half || |b| < half {
      assert |all| > maxFiles && |a| < half ==> |b| <= |a| by {
        assert (|all| > maxFiles && |a| < half) ==> b.Keys <= a.Keys;
        if |all| > maxFiles && |a| < half {
          SubsetSize(b.Keys, a.Keys);
        }
      }
      assert |all| > maxFiles && |b| < half ==> |a| <= |b| by {
        assert (|all| > maxFiles && |b| < half) ==> a.Keys <= b.Keys;
        if |all| > maxFiles && |b| < half {
          SubsetSize(a.Keys, b.Keys);
        }
      }
    } else {
      Comparable(all, time, a, b, curTime, maxFiles, maxAge);
      assert |a| == |a.Keys| && |b| == |b.Keys|;
      SameSizeSubset(a.Keys, b.Keys);
      SameSizeSubset(b.Keys, a.Keys);
    }
    assert a.Keys == b.Keys;
  }

  lemma Comparable(all: AvatarMap, time: MD5Buf -> int, a: AvatarMap, b: AvatarMap, curTime: int, maxFiles: nat, maxAge: int)
    requires Retains(all, time, a, curTime, maxFiles, maxAge) && Retains(all, time, b, curTime, maxFiles, maxAge)
    requires forall k, l :: k in all && l in all && time(k) == time(l) ==> k == l
    ensures a.Keys <= b.Keys || b.Keys <= a.Keys
  {
    if x :| x in a && x !in b {
      assert forall y :: y in b ==> time(x) <= time(y);
    }
  }

  lemma SameSizeSubset<T>(s: set<T>, t: set<T>)
    ensures s <= t && |s| == |t| ==> s == t
  {
    if s <= t {
      assert t == s + (t - s);
    }
  }

  lemma SubsetSize<T>(s: set<T>, t: set<T>)
    requires s <= t
    ensures |s| <= |t|
  {
    assert t == s + (t - s);
  }

  // ---------------------------------------------------------------------------------------------
  // The cleanup itself.

  ghost predicate Ordered(tm: TimeAvatarMap) {
    forall i, j :: 0 <= i < j < |tm| ==> tm[i].0 <= tm[j].0
  }

  ghost function KeysOf(tm: TimeAvatarMap): set<MD5Buf> {
    set i | 0 <= i < |tm| :: tm[i].1
  }

  /** The time map holds the same keys as the cache, each once and with its own time. */
  ghost predicate SameKeys(tm: TimeAvatarMap, keys: set<MD5Buf>, time: MD5Buf -> int) {
    && Ordered(tm) && KeysOf(tm) == keys
    && (forall i, j :: 0 <= i < j < |tm| ==> tm[i].1 != tm[j].1)
    && forall i :: 0 <= i < |tm| ==> tm[i].0 == time(tm[i].1)
  }

  /** A half-done eviction: what is still cached, and what is to be removed, in this order. */
  ghost predicate Evicting(all: AvatarMap, time: MD5Buf -> int, cache: AvatarMap, tm: TimeAvatarMap, gone: seq<MD5Buf>, files: seq<string>) {
    && SameKeys(tm, cache.Keys, time)
    && (forall k :: k in cache ==> k in all && cache[k] == all[k])
    && Removed(all, cache, gone, files)
    && (forall e, i :: e in gone && 0 <= i < |tm| ==> time(e) <= tm[i].0)
    && OldestFirst(gone, time)
  }

  ghost predicate OldestFirst(gone: seq<MD5Buf>, time: MD5Buf -> int) {
    forall i, j :: 0 <= i < j < |gone| ==> time(gone[i]) <= time(gone[j])
  }

  /** The files to be removed are those of the evicted entries, each once. */
  ghost predicate Removed(all: AvatarMap, cache: AvatarMap, gone: seq<MD5Buf>, files: seq<string>) {
    && |files| == |gone|
    && (forall k :: k in all ==> (k in gone <==> k !in cache))
    && (forall i :: 0 <= i < |gone| ==> gone[i] in all && files[i] == all[gone[i]])
    && forall i, j :: 0 <= i < j < |gone| ==> gone[i] != gone[j]
  }

  class AvatarManager {
    var m_cachedAvatars: AvatarMap

    constructor (cached: AvatarMap)
      ensures m_cachedAvatars == cached
    {
      m_cachedAvatars := cached;
    }

    /** Inserting into the time map: behind the files that are not younger. */
    static method Insert(tm: TimeAvatarMap, time: int, key: MD5Buf) returns (r: TimeAvatarMap)
      requires Ordered(tm)
      ensures Ordered(r) && |r| == |tm| + 1
      ensures exists p :: 0 <= p <= |tm| && r == tm[..p] + [(time, key)] + tm[p..]
    {
      var p := 0;
      while p < |tm| && tm[p].0 <= time
        invariant 0 <= p <= |tm| && forall i :: 0 <= i < p ==> tm[i].0 <= time
      {
        p := p + 1;
      }
      r := tm[..p] + [(time, key)] + tm[p..];
    }

    /** The first pass reads the cache, and stops when the file system fails. */
    method FirstPass(cacheDir: string, probe: string -> Probe) returns (ok: bool, timeMap: TimeAvatarMap, removeList: set<MD5Buf>)
      ensures ok <==> forall k :: k in m_cachedAvatars ==> !Asked(m_cachedAvatars[k], cacheDir, probe).Fails?
      ensures ok ==>
                && SameKeys(timeMap, Survivors(m_cachedAvatars, cacheDir, probe).Keys, Times(m_cachedAvatars, cacheDir, probe))
                && removeList == m_cachedAvatars.Keys - Survivors(m_cachedAvatars, cacheDir, probe).Keys
    {
      ghost var time := Times(m_cachedAvatars, cacheDir, probe);
      ghost var all := Survivors(m_cachedAvatars, cacheDir, probe).Keys;
      timeMap, removeList := [], {};
      var todo := m_cachedAvatars.Keys;
      while todo != {}
        invariant todo <= m_cachedAvatars.Keys
        invariant forall k :: k in m_cachedAvatars && k !in todo ==> !Asked(m_cachedAvatars[k], cacheDir, probe).Fails?
        invariant SameKeys(timeMap, all - todo, time)
        invariant removeList == m_cachedAvatars.Keys - all - todo
        decreases todo
      {
        var i :| i in todo;
        match Asked(m_cachedAvatars[i], cacheDir, probe) {
          case Fails =>
            return false, timeMap, removeList;
          case Written(t) =>
            var before := timeMap;
            timeMap := Insert(timeMap, t, i);
            ghost var p :| 0 <= p <= |before| && timeMap == before[..p] + [(t, i)] + before[p..];
            Inserted(before, timeMap, p, t, i, all - todo, time);
            assert all - (todo - {i}) == all - todo + {i};
          case NotKept =>
            removeList := removeList + {i};
            assert all - (todo - {i}) == all - todo;
        }
        todo := todo - {i};
      }
      assert all - {} == all;
      ok := true;
    }

    /** The oldest file goes. */
    method EvictOldest(timeMap: TimeAvatarMap, files: seq<string>, ghost all: AvatarMap, ghost time: MD5Buf -> int, ghost gone: seq<MD5Buf>)
      returns (rest: TimeAvatarMap, filesToRemove: seq<string>, ghost nowGone: seq<MD5Buf>)
      requires timeMap != [] && Evicting(all, time, m_cachedAvatars, timeMap, gone, files)
      modifies this
      ensures Evicting(all, time, m_cachedAvatars, rest, nowGone, filesToRemove)
      ensures rest == timeMap[1..] && nowGone == gone + [timeMap[0].1]
      ensures |m_cachedAvatars| == |old(m_cachedAvatars)| - 1
    {
      var key := timeMap[0].1;
      OldestIsCached(timeMap, m_cachedAvatars.Keys, time);
      filesToRemove := files;
      if key in m_cachedAvatars {
        filesToRemove := filesToRemove + [m_cachedAvatars[key]];
        m_cachedAvatars := m_cachedAvatars - {key};
      }
      rest := timeMap[1..];
      nowGone := gone + [key];
      assert m_cachedAvatars.Keys == old(m_cachedAvatars).Keys - {key};
      EvictedOne(all, time, old(m_cachedAvatars), timeMap, gone, files, filesToRemove);
    }

    /** Evicting by number: down to half the limit if it is exceeded. */
    method EvictByNumber(maxFiles: nat, timeMap: TimeAvatarMap, ghost all: AvatarMap, ghost time: MD5Buf -> int)
      returns (rest: TimeAvatarMap, files: seq<string>, ghost gone: seq<MD5Buf>)
      requires Evicting(all, time, m_cachedAvatars, timeMap, [], []) && m_cachedAvatars == all
      modifies this
      ensures Evicting(all, time, m_cachedAvatars, rest, gone, files)
      ensures if |all| > maxFiles then |m_cachedAvatars| == maxFiles / 2 else m_cachedAvatars == all && gone == []
    {
      hide Evicting;
      rest, files, gone := timeMap, [], [];
      if |m_cachedAvatars| > maxFiles {
        while rest != [] && |m_cachedAvatars| > maxFiles / 2
          invariant Evicting(all, time, m_cachedAvatars, rest, gone, files)
          invariant |m_cachedAvatars| >= maxFiles / 2
          decreases |rest|
        {
          rest, files, gone := EvictOldest(rest, files, all, time, gone);
        }
        if rest == [] {
          EmptyTogether(all, time, m_cachedAvatars, gone, files);
        }
      }
    }

    /** Evicting by age. */
    method EvictByAge(curTime: int, maxAge: int, timeMap: TimeAvatarMap, files0: seq<string>,
                      ghost all: AvatarMap, ghost time: MD5Buf -> int, ghost gone0: seq<MD5Buf>)
      returns (rest: TimeAvatarMap, files: seq<string>, ghost gone: seq<MD5Buf>)
      requires Evicting(all, time, m_cachedAvatars, timeMap, gone0, files0)
      modifies this
      ensures Evicting(all, time, m_cachedAvatars, rest, gone, files)
      ensures forall r :: r in m_cachedAvatars ==> !TooOld(time(r), curTime, maxAge)
      ensures gone == gone0 || (gone != [] && TooOld(time(gone[|gone| - 1]), curTime, maxAge))
      ensures gone0 <= gone && |m_cachedAvatars| == |old(m_cachedAvatars)| - (|gone| - |gone0|)
    {
      hide Evicting;
      rest, files, gone := timeMap, files0, gone0;
      while rest != [] && m_cachedAvatars != map[]
        invariant Evicting(all, time, m_cachedAvatars, rest, gone, files)
        invariant gone == gone0 || (gone != [] && TooOld(time(gone[|gone| - 1]), curTime, maxAge))
        invariant gone0 <= gone && |m_cachedAvatars| == |old(m_cachedAvatars)| - (|gone| - |gone0|)
        decreases |rest|
      {
        if curTime <= rest[0].0 || curTime - rest[0].0 < maxAge {
          YoungestRemain(all, time, m_cachedAvatars, rest, gone, files, curTime, maxAge);
          return;
        }
        FirstTime(all, time, m_cachedAvatars, rest, gone, files);
        rest, files, gone := EvictOldest(rest, files, all, time, gone);
      }
      if rest == [] {
        EmptyTogether(all, time, m_cachedAvatars, gone, files);
      }
    }

    /** The cleanup. Without a cache directory, or when the file system fails in the first pass, the
        cache stays as it is. Otherwise what does not survive the first pass is dropped, the rest is
        retained by the rule, and the files of what is evicted, and no others, are to be removed. */
    method RemoveOldAvatarCacheEntries(cacheDir: string, probe: string -> Probe, curTime: int, maxFiles: nat, maxAge: int)
      returns (filesToRemove: seq<string>, ghost gone: seq<MD5Buf>)
      modifies this
      ensures var was := old(m_cachedAvatars);
              var fails := exists k :: k in was && Asked(was[k], cacheDir, probe).Fails?;
              if cacheDir == "" || fails then m_cachedAvatars == was && filesToRemove == []
              else
                var all := Survivors(was, cacheDir, probe);
                && Retains(all, Times(was, cacheDir, probe), m_cachedAvatars, curTime, maxFiles, maxAge)
                && Removed(all, m_cachedAvatars, gone, filesToRemove)
    {
      filesToRemove, gone := [], [];
      if cacheDir != "" {
        hide Retains, Removed, Evicting, SameKeys, Times;
        ghost var was := m_cachedAvatars;
        var ok, timeMap, removeList := FirstPass(cacheDir, probe);
        if !ok {
          return;
        }
        ghost var all, time := Survivors(was, cacheDir, probe), Times(was, cacheDir, probe);
        m_cachedAvatars := m_cachedAvatars - removeList;
        assert m_cachedAvatars == all;
        NothingGoneYet(all, time, timeMap);
        var rest;
        rest, filesToRemove, gone := EvictByNumber(maxFiles, timeMap, all, time);
        ghost var gone0 := gone;
        rest, filesToRemove, gone := EvictByAge(curTime, maxAge, rest, filesToRemove, all, time, gone);
        EvictionFollowsRule(all, time, m_cachedAvatars, rest, gone, filesToRemove, gone0, curTime, maxFiles, maxAge);
      }
    }
  }

  /** One more entry at place p, the others as they were. */
  ghost predicate IsInserted(before: TimeAvatarMap, after: TimeAvatarMap, p: nat, x: (int, MD5Buf)) {
    && p < |after| == |before| + 1 && after[p] == x
    && (forall i :: 0 <= i < p ==> after[i] == before[i])
    && forall i :: p < i < |after| ==> after[i] == before[i - 1]
  }

  lemma Inserted(before: TimeAvatarMap, after: TimeAvatarMap, p: nat, t: int, key: MD5Buf, keys: set<MD5Buf>, time: MD5Buf -> int)
    requires SameKeys(before, keys, time) && key !in keys && t == time(key)
    requires p <= |before| && after == before[..p] + [(t, key)] + before[p..] && Ordered(after)
    ensures SameKeys(after, keys + {key}, time)
  {
    assert IsInserted(before, after, p, (t, key));
    InsertedKeys(before, after, p, t, key);
    assert forall i :: 0 <= i < |before| ==> before[i].1 in KeysOf(before);
    hide KeysOf, Ordered, IsInserted;
    InsertedOnce(before, after, p, t, key);
    InsertedTimes(before, after, p, t, key, time);
  }

  lemma InsertedOnce(before: TimeAvatarMap, after: TimeAvatarMap, p: nat, t: int, key: MD5Buf)
    requires forall i, j :: 0 <= i < j < |before| ==> before[i].1 != before[j].1
    requires forall i :: 0 <= i < |before| ==> before[i].1 != key
    requires IsInserted(before, after, p, (t, key))
    ensures forall i, j :: 0 <= i < j < |after| ==> after[i].1 != after[j].1
  {
  }

  lemma InsertedTimes(before: TimeAvatarMap, after: TimeAvatarMap, p: nat, t: int, key: MD5Buf, time: MD5Buf -> int)
    requires forall i :: 0 <= i < |before| ==> before[i].0 == time(before[i].1)
    requires IsInserted(before, after, p, (t, key)) && t == time(key)
    ensures forall i :: 0 <= i < |after| ==> after[i].0 == time(after[i].1)
  {
  }

  lemma InsertedKeys(before: TimeAvatarMap, after: TimeAvatarMap, p: nat, t: int, key: MD5Buf)
    requires IsInserted(before, after, p, (t, key))
    ensures KeysOf(after) == KeysOf(before) + {key}
  {
    forall k | k in KeysOf(before) + {key}
      ensures k in KeysOf(after)
    {
      if k in KeysOf(before) {
        var i :| 0 <= i < |before| && before[i].1 == k;
        assert after[if i < p then i else i + 1].1 == k;
      } else {
        assert after[p].1 == k;
      }
    }
    forall k | k in KeysOf(after)
      ensures k in KeysOf(before) + {key}
    {
      var i :| 0 <= i < |after| && after[i].1 == k;
      assert i != p ==> before[if i < p then i else i - 1].1 == k;
    }
  }

  lemma OldestIsCached(tm: TimeAvatarMap, keys: set<MD5Buf>, time: MD5Buf -> int)
    requires tm != [] && SameKeys(tm, keys, time)
    ensures tm[0].1 in keys && SameKeys(tm[1..], keys - {tm[0].1}, time)
  {
    var key, rest := tm[0].1, tm[1..];
    assert key in KeysOf(tm);
    forall k | k in keys - {key}
      ensures k in KeysOf(rest)
    {
      var i :| 0 <= i < |tm| && tm[i].1 == k;
      assert rest[i - 1].1 == k;
    }
    forall i | 0 <= i < |rest|
      ensures rest[i].1 in keys - {key}
    {
      assert tm[i + 1].1 in KeysOf(tm);
    }
  }

  lemma EvictedOne(all: AvatarMap, time: MD5Buf -> int, cache: AvatarMap, tm: TimeAvatarMap, gone: seq<MD5Buf>,
                   files: seq<string>, filesNow: seq<string>)
    requires tm != [] && Evicting(all, time, cache, tm, gone, files) && tm[0].1 in cache
    requires filesNow == files + [cache[tm[0].1]]
    ensures Evicting(all, time, cache - {tm[0].1}, tm[1..], gone + [tm[0].1], filesNow)
  {
    var key := tm[0].1;
    OldestIsCached(tm, cache.Keys, time);
    assert (cache - {key}).Keys == cache.Keys - {key};
    hide SameKeys;
    assert tm[0].0 == time(key) && (forall i :: 0 <= i < |tm[1..]| ==> tm[0].0 <= tm[1..][i].0) by {
      FirstIsOldest(tm, cache.Keys, time);
    }
    assert key !in gone;
  }

  lemma FirstIsOldest(tm: TimeAvatarMap, keys: set<MD5Buf>, time: MD5Buf -> int)
    requires tm != [] && SameKeys(tm, keys, time)
    ensures tm[0].0 == time(tm[0].1) && forall i :: 0 <= i < |tm[1..]| ==> tm[0].0 <= tm[1..][i].0
  {
  }

  lemma EmptyTogether(all: AvatarMap, time: MD5Buf -> int, cache: AvatarMap, gone: seq<MD5Buf>, files: seq<string>)
    requires Evicting(all, time, cache, [], gone, files)
    ensures cache == map[] && |cache| == 0
  {
    assert KeysOf([]) == {};
    assert forall k :: k in cache ==> k in cache.Keys;
  }

  lemma NothingGoneYet(all: AvatarMap, time: MD5Buf -> int, tm: TimeAvatarMap)
    requires SameKeys(tm, all.Keys, time)
    ensures Evicting(all, time, all, tm, [], [])
  {
  }

  lemma FirstTime(all: AvatarMap, time: MD5Buf -> int, cache: AvatarMap, tm: TimeAvatarMap, gone: seq<MD5Buf>, files: seq<string>)
    requires tm != [] && Evicting(all, time, cache, tm, gone, files)
    ensures tm[0].0 == time(tm[0].1)
  {
  }

  lemma YoungestRemain(all: AvatarMap, time: MD5Buf -> int, cache: AvatarMap, tm: TimeAvatarMap, gone: seq<MD5Buf>, files: seq<string>,
                       curTime: int, maxAge: int)
    requires tm != [] && Evicting(all, time, cache, tm, gone, files) && !TooOld(tm[0].0, curTime, maxAge)
    ensures forall r :: r in cache ==> !TooOld(time(r), curTime, maxAge)
  {
    forall r | r in cache
      ensures !TooOld(time(r), curTime, maxAge)
    {
      assert r in KeysOf(tm);
      var i :| 0 <= i < |tm| && tm[i].1 == r;
    }
  }

  /** The evicted are in order of age, so what the loops leave is what the rule asks for. */
  lemma EvictionFollowsRule(all: AvatarMap, time: MD5Buf -> int, cache: AvatarMap, tm: TimeAvatarMap, gone: seq<MD5Buf>, files: seq<string>,
                            gone0: seq<MD5Buf>, curTime: int, maxFiles: nat, maxAge: int)
    requires Evicting(all, time, cache, tm, gone, files) && gone0 <= gone
    requires forall r :: r in cache ==> !TooOld(time(r), curTime, maxAge)
    requires gone == gone0 || (gone != [] && TooOld(time(gone[|gone| - 1]), curTime, maxAge))
    requires if |all| > maxFiles then |cache| == maxFiles / 2 - (|gone| - |gone0|) else gone0 == []
    ensures Retains(all, time, cache, curTime, maxFiles, maxAge) && Removed(all, cache, gone, files)
  {
    EvictedAreOlder(all, time, cache, tm, gone, files);
    if |all| <= maxFiles || |cache| < maxFiles / 2 {
      EvictedAreTooOld(all, time, cache, gone, files, curTime, maxAge);
    }
    hide SameKeys, OldestFirst, TooOld;
  }

  lemma EvictedAreOlder(all: AvatarMap, time: MD5Buf -> int, cache: AvatarMap, tm: TimeAvatarMap, gone: seq<MD5Buf>, files: seq<string>)
    requires Evicting(all, time, cache, tm, gone, files)
    ensures forall e, r :: e in all && e !in cache && r in cache ==> time(e) <= time(r)
  {
    forall e, r | e in all && e !in cache && r in cache
      ensures time(e) <= time(r)
    {
      assert r in KeysOf(tm);
      var i :| 0 <= i < |tm| && tm[i].1 == r;
      assert e in gone;
    }
  }

  lemma EvictedAreTooOld(all: AvatarMap, time: MD5Buf -> int, cache: AvatarMap, gone: seq<MD5Buf>, files: seq<string>, curTime: int, maxAge: int)
    requires Removed(all, cache, gone, files) && OldestFirst(gone, time)
    requires gone != [] ==> TooOld(time(gone[|gone| - 1]), curTime, maxAge)
    ensures forall e :: e in all && e !in cache ==> TooOld(time(e), curTime, maxAge)
  {
    forall e | e in all && e !in cache
      ensures TooOld(time(e), curTime, maxAge)
    {
      var i :| 0 <= i < |gone| && gone[i] == e;
      assert time(gone[i]) <= time(gone[|gone| - 1]);
    }
  }

  /** Whatever the cache held, a cleanup removes only files below the cache directory that the file system says
      are there, and each of them because there were too many or because it had reached its age; and what it leaves in
      the cache is below the directory, is there, and has not reached its age. */
  lemma OnlyOwnFilesRemoved(was: AvatarMap, dir: string, probe: string -> Probe, kept: AvatarMap, gone: seq<MD5Buf>, files: seq<string>,
                            curTime: int, maxFiles: nat, maxAge: int)
    requires Retains(Survivors(was, dir, probe), Times(was, dir, probe), kept, curTime, maxFiles, maxAge)
    requires Removed(Survivors(was, dir, probe), kept, gone, files)
    ensures forall i :: 0 <= i < |files| ==>
              var f := files[i];
              && dir + "/" <= f && probe(f).Written?
              && (|Survivors(was, dir, probe)| > maxFiles || (curTime > probe(f).time && curTime - probe(f).time >= maxAge))
    ensures forall k :: k in kept ==>
              && k in was && kept[k] == was[k] && dir + "/" <= was[k] && probe(was[k]).Written?
              && (curTime <= probe(was[k]).time || curTime - probe(was[k]).time < maxAge)
  {
    forall k | k in Survivors(was, dir, probe)
      ensures dir + "/" <= was[k] && probe(was[k]).Written? && Times(was, dir, probe)(k) == probe(was[k]).time
    {
      assert was[k][..|dir| + 1] == dir + "/";
    }
    hide Survivors, Times, Asked, InDirectory;
    assert forall i :: 0 <= i < |gone| ==> gone[i] in gone;
  }
}
