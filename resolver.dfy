/**
 * Following namespace includes (src/repository.rs, `from_path` and the
 * two `from_path_follow_namespaces` functions). A GIR file names the
 * namespaces it includes; resolving a file reads it, then resolves each
 * included package file that is not cached yet, and caches the file itself
 * last. The directory of GIR files is a map from file name to what reading
 * that file yields.
 *
 * `Resolve` and `ResolveIncludes` state the behaviour with a fuel bound:
 * `None` means the recursion has not finished within that depth, which is
 * what happens forever on an include cycle. `RepositoryCache` is the cache
 * the source threads through the recursion, and its method is proved
 * against `Resolve`.
 */
module Resolution {
  import opened Wrappers
  import opened Lib
  import opened Xml
  import opened Repositories

  /** What reading one file of the directory gives. */
  datatype File =
    | Unreadable(io: IoError)   // the read itself fails
    | Unparsable(message: string) // the text is not well-formed XML
    | Document(root: Element)   // a well-formed document, not yet checked against the field tables

  type Directory = map<string, File>
  type Cache = map<string, Repository>

  /** Reading and decoding one file: I/O failures are `IO`, every parse failure is `Xml`. */
  function ReadFile(file: File): (r: Result<Repository, ParserError>)
    ensures r.Ok? <==> file.Document? && DecodeRepository(file.root).Ok?
    ensures r.Ok? ==> r.value == DecodeRepository(file.root).value
    ensures file.Unreadable? ==> r == Err(IO(file.io))
    ensures r.Err? && !file.Unreadable? ==> r.error.Xml?
  {
    match file
    case Unreadable(io) => Err(FromIo(io))
    case Unparsable(m) => Err(Xml(m))
    case Document(root) => DecodeRepository(root).MapErr(m => Xml(m))
  }

  /** What reading each file of the directory gives, by file name. */
  type Listing = map<string, Result<Repository, ParserError>>

  function ReadAll(dir: Directory): (listing: Listing)
    ensures listing.Keys == dir.Keys
    ensures forall path :: path in dir ==> listing[path] == ReadFile(dir[path])
  {
    map path | path in dir :: ReadFile(dir[path])
  }

  /** `Repository::from_path`: a name missing from the directory is an I/O `NotFound`. */
  function FromPath(listing: Listing, path: string): (r: Result<Repository, ParserError>)
    ensures path !in listing ==> r == Err(IO(NotFound))
    ensures path in listing ==> r == listing[path]
  {
    if path in listing then listing[path] else Err(FromIo(NotFound))
  }

  /** Reading all files up front and looking one up is the same as reading that one file. */
  lemma FromPathReadsFile(dir: Directory, path: string)
    ensures path in dir ==> FromPath(ReadAll(dir), path) == ReadFile(dir[path])
    ensures path !in dir ==> FromPath(ReadAll(dir), path) == Err(IO(NotFound))
  {
  }

  /** The cache when a resolution stops, and whether it succeeded. */
  datatype Outcome = Outcome(cache: Cache, result: Result<(), ParserError>)

  /** Resolving `file` against `cache`, at most `fuel` includes deep. */
  function Resolve(dir: Listing, cache: Cache, file: string, fuel: nat): Option<Outcome>
    decreases fuel, 0
  {
    match FromPath(dir, file)
    case Err(err) => Some(Outcome(cache, Err(err)))
    case Ok(repo) =>
      if file in cache then Some(Outcome(cache, Ok(())))
      else if fuel == 0 then None
      else
        match ResolveIncludes(dir, cache, repo.includes, fuel - 1)
        case None => None
        case Some(Outcome(c, Err(err))) => Some(Outcome(c, Err(err)))
        case Some(Outcome(c, Ok(_))) => Some(Outcome(c[file := repo], Ok(())))
  }

  /** The loop over a file's includes: cached package files are skipped, the first failure stops it. */
  function ResolveIncludes(dir: Listing, cache: Cache, incs: seq<NamespaceInclude>, fuel: nat): Option<Outcome>
    decreases fuel, 1, |incs|
  {
    if incs == [] then Some(Outcome(cache, Ok(())))
    else
      var f := incs[0].AsPackageFile();
      if f in cache then ResolveIncludes(dir, cache, incs[1..], fuel)
      else
        match Resolve(dir, cache, f, fuel)
        case None => None
        case Some(Outcome(c, Err(err))) => Some(Outcome(c, Err(err)))
        case Some(Outcome(c, Ok(_))) => ResolveIncludes(dir, c, incs[1..], fuel)
  }

  // ------------------------------------------------------------ fuel

  /** Once a resolution finishes, more fuel changes nothing. */
  lemma {:induction false} ResolveFuelMonotone(dir: Listing, cache: Cache, file: string, fuel: nat, more: nat)
    requires Resolve(dir, cache, file, fuel).Some? && fuel <= more
    ensures Resolve(dir, cache, file, more) == Resolve(dir, cache, file, fuel)
    decreases fuel, 0
  {
    if FromPath(dir, file).Ok? && file !in cache {
      ResolveIncludesFuelMonotone(dir, cache, FromPath(dir, file).value.includes, fuel - 1, more - 1);
    }
  }

  lemma {:induction false} ResolveIncludesFuelMonotone(dir: Listing, cache: Cache, incs: seq<NamespaceInclude>, fuel: nat, more: nat)
    requires ResolveIncludes(dir, cache, incs, fuel).Some? && fuel <= more
    ensures ResolveIncludes(dir, cache, incs, more) == ResolveIncludes(dir, cache, incs, fuel)
    decreases fuel, 1, |incs|
  {
    if incs != [] {
      var f := incs[0].AsPackageFile();
      if f in cache {
        ResolveIncludesFuelMonotone(dir, cache, incs[1..], fuel, more);
      } else {
        ResolveFuelMonotone(dir, cache, f, fuel, more);
        var o := Resolve(dir, cache, f, fuel).value;
        if o.result.Ok? {
          ResolveIncludesFuelMonotone(dir, o.cache, incs[1..], fuel, more);
        }
      }
    }
  }

  // ------------------------------------------------------------ termination

  /** Every file that reads and decodes includes only package files of lower rank. */
  ghost predicate Acyclic(dir: Listing, rank: string -> nat)
  {
    forall f, i {:trigger rank(FromPath(dir, f).value.includes[i].AsPackageFile())} ::
      FromPath(dir, f).Ok? && 0 <= i < |FromPath(dir, f).value.includes| ==>
      rank(FromPath(dir, f).value.includes[i].AsPackageFile()) < rank(f)
  }

  /** Without include cycles the recursion finishes, within one more level than the file's rank. */
  lemma {:induction false} AcyclicResolves(dir: Listing, rank: string -> nat, cache: Cache, file: string)
    requires Acyclic(dir, rank)
    ensures Resolve(dir, cache, file, rank(file) + 1).Some?
    decreases rank(file), 1
  {
    if FromPath(dir, file).Ok? && file !in cache {
      var incs := FromPath(dir, file).value.includes;
      forall i | 0 <= i < |incs|
        ensures rank(incs[i].AsPackageFile()) < rank(file)
      {
      }
      AcyclicResolvesIncludes(dir, rank, cache, incs, rank(file));
    }
  }

  lemma {:induction false} AcyclicResolvesIncludes(dir: Listing, rank: string -> nat, cache: Cache, incs: seq<NamespaceInclude>, fuel: nat)
    requires Acyclic(dir, rank)
    requires forall i :: 0 <= i < |incs| ==> rank(incs[i].AsPackageFile()) < fuel
    ensures ResolveIncludes(dir, cache, incs, fuel).Some?
    decreases fuel, 0, |incs|
  {
    if incs != [] {
      var f := incs[0].AsPackageFile();
      if f in cache {
        AcyclicResolvesIncludes(dir, rank, cache, incs[1..], fuel);
      } else {
        AcyclicResolves(dir, rank, cache, f);
        ResolveFuelMonotone(dir, cache, f, rank(f) + 1, fuel);
        var o := Resolve(dir, cache, f, fuel).value;
        if o.result.Ok? {
          AcyclicResolvesIncludes(dir, rank, o.cache, incs[1..], fuel);
        }
      }
    }
  }

  /**
   * Two uncached files that include only each other (or one file that
   * includes only itself) never finish: no depth is enough.
   */
  lemma {:induction false} CycleDiverges(dir: Listing, cache: Cache, a: string, b: string, fuel: nat)
    requires FromPath(dir, a).Ok? && FromPath(dir, b).Ok?
    requires |FromPath(dir, a).value.includes| == 1 && FromPath(dir, a).value.includes[0].AsPackageFile() == b
    requires |FromPath(dir, b).value.includes| == 1 && FromPath(dir, b).value.includes[0].AsPackageFile() == a
    requires a !in cache && b !in cache
    ensures Resolve(dir, cache, a, fuel).None?
    decreases fuel
  {
    if fuel > 0 {
      CycleDiverges(dir, cache, b, a, fuel - 1);
      var incs := FromPath(dir, a).value.includes;
      assert incs[1..] == [];
      assert ResolveIncludes(dir, cache, incs, fuel - 1).None?;
    }
  }

  // ------------------------------------------------------------ the cache

  /** `after` keeps every entry of `before`, and each new entry is what its file reads and decodes to. */
  ghost predicate Extends(dir: Listing, before: Cache, after: Cache)
  {
    && (forall f :: f in before ==> f in after && after[f] == before[f])
    && (forall f :: f in after && f !in before ==> FromPath(dir, f) == Ok(after[f]))
  }

  lemma ExtendsTransitive(dir: Listing, a: Cache, b: Cache, c: Cache)
    requires Extends(dir, a, b) && Extends(dir, b, c)
    ensures Extends(dir, a, c)
  {
  }

  /** Whatever the outcome, nothing cached is lost or replaced, and only decoded files are added. */
  lemma {:induction false} ResolveExtends(dir: Listing, cache: Cache, file: string, fuel: nat)
    requires Resolve(dir, cache, file, fuel).Some?
    ensures Extends(dir, cache, Resolve(dir, cache, file, fuel).value.cache)
    decreases fuel, 0
  {
    if FromPath(dir, file).Ok? && file !in cache {
      ResolveIncludesExtends(dir, cache, FromPath(dir, file).value.includes, fuel - 1);
    }
  }

  lemma {:induction false} ResolveIncludesExtends(dir: Listing, cache: Cache, incs: seq<NamespaceInclude>, fuel: nat)
    requires ResolveIncludes(dir, cache, incs, fuel).Some?
    ensures Extends(dir, cache, ResolveIncludes(dir, cache, incs, fuel).value.cache)
    decreases fuel, 1, |incs|
  {
    if incs != [] {
      var f := incs[0].AsPackageFile();
      if f in cache {
        ResolveIncludesExtends(dir, cache, incs[1..], fuel);
      } else {
        ResolveExtends(dir, cache, f, fuel);
        var o := Resolve(dir, cache, f, fuel).value;
        if o.result.Ok? {
          ResolveIncludesExtends(dir, o.cache, incs[1..], fuel);
          ExtendsTransitive(dir, cache, o.cache, ResolveIncludes(dir, cache, incs, fuel).value.cache);
        }
      }
    }
  }

  /** On success the file is cached, and so is every package file it includes, unless it was cached already. */
  lemma {:induction false} ResolvedIsCached(dir: Listing, cache: Cache, file: string, fuel: nat)
    requires Resolve(dir, cache, file, fuel).Some? && Resolve(dir, cache, file, fuel).value.result.Ok?
    ensures file in Resolve(dir, cache, file, fuel).value.cache
    ensures file !in cache ==>
              forall i :: 0 <= i < |FromPath(dir, file).value.includes| ==>
                FromPath(dir, file).value.includes[i].AsPackageFile() in Resolve(dir, cache, file, fuel).value.cache
    decreases fuel, 0
  {
    if file !in cache {
      ResolveIncludesCached(dir, cache, FromPath(dir, file).value.includes, fuel - 1);
    }
  }

  lemma {:induction false} ResolveIncludesCached(dir: Listing, cache: Cache, incs: seq<NamespaceInclude>, fuel: nat)
    requires ResolveIncludes(dir, cache, incs, fuel).Some? && ResolveIncludes(dir, cache, incs, fuel).value.result.Ok?
    ensures forall i :: 0 <= i < |incs| ==> incs[i].AsPackageFile() in ResolveIncludes(dir, cache, incs, fuel).value.cache
    decreases fuel, 1, |incs|
  {
    if incs != [] {
      var f := incs[0].AsPackageFile();
      var last := ResolveIncludes(dir, cache, incs, fuel).value.cache;
      var mid := cache;
      if f !in cache {
        ResolvedIsCached(dir, cache, f, fuel);
        mid := Resolve(dir, cache, f, fuel).value.cache;
      }
      assert ResolveIncludes(dir, mid, incs[1..], fuel) == ResolveIncludes(dir, cache, incs, fuel);
      ResolveIncludesCached(dir, mid, incs[1..], fuel);
      ResolveIncludesExtends(dir, mid, incs[1..], fuel);
      forall i | 0 <= i < |incs|
        ensures incs[i].AsPackageFile() in last
      {
        if i > 0 {
          assert incs[i] == incs[1..][i - 1];
        }
      }
    }
  }

  // ------------------------------------------------------------ reachability

  /** `g` is one of the package files that `f` includes, `f` being a file that reads and decodes. */
  ghost predicate Step(dir: Listing, f: string, g: string)
  {
    FromPath(dir, f).Ok? && exists i :: 0 <= i < |FromPath(dir, f).value.includes| &&
                                       FromPath(dir, f).value.includes[i].AsPackageFile() == g
  }

  /** `g` is `file` or is reached from it by at most `n` include steps. */
  ghost predicate ReachableIn(dir: Listing, file: string, g: string, n: nat)
    decreases n
  {
    g == file || (n > 0 && exists f :: ReachableIn(dir, file, f, n - 1) && Step(dir, f, g))
  }

  /** The files reached from `file` by following includes. */
  ghost predicate Reachable(dir: Listing, file: string, g: string)
  {
    exists n: nat :: ReachableIn(dir, file, g, n)
  }

  /** A step in front of a path is a path one step longer. */
  lemma {:induction false} StepThenReach(dir: Listing, file: string, f: string, g: string, n: nat)
    requires Step(dir, file, f) && ReachableIn(dir, f, g, n)
    ensures ReachableIn(dir, file, g, n + 1)
    decreases n
  {
    if g == f {
      assert ReachableIn(dir, file, file, n);
    } else {
      var m :| ReachableIn(dir, f, m, n - 1) && Step(dir, m, g);
      StepThenReach(dir, file, f, m, n - 1);
    }
  }


  /** An entry a resolution adds, other than the file itself, comes from the loop over the file's includes. */
  lemma ResolveAddedByIncludes(dir: Listing, cache: Cache, file: string, fuel: nat, g: string)
    requires Resolve(dir, cache, file, fuel).Some?
    requires g in Resolve(dir, cache, file, fuel).value.cache && g !in cache && g != file
    ensures FromPath(dir, file).Ok? && fuel > 0
    ensures ResolveIncludes(dir, cache, FromPath(dir, file).value.includes, fuel - 1).Some?
    ensures g in ResolveIncludes(dir, cache, FromPath(dir, file).value.includes, fuel - 1).value.cache
  {
  }

  /** Every entry a resolution adds is reachable from the file resolved, whatever the outcome, within `n` steps. */
  lemma {:induction false} ResolveAddsReachable(dir: Listing, cache: Cache, file: string, fuel: nat, g: string)
    returns (n: nat)
    requires Resolve(dir, cache, file, fuel).Some?
    requires g in Resolve(dir, cache, file, fuel).value.cache && g !in cache
    ensures ReachableIn(dir, file, g, n)
    decreases fuel, 0
  {
    if g == file {
      n := 0;
    } else {
      ResolveAddedByIncludes(dir, cache, file, fuel, g);
      var incs := FromPath(dir, file).value.includes;
      n := ResolveIncludesAddsReachable(dir, cache, incs, fuel - 1, file, g);
    }
  }

  lemma {:induction false} ResolveIncludesAddsReachable(dir: Listing, cache: Cache, incs: seq<NamespaceInclude>, fuel: nat,
                                                        parent: string, g: string)
    returns (n: nat)
    requires ResolveIncludes(dir, cache, incs, fuel).Some?
    requires FromPath(dir, parent).Ok? && forall i :: 0 <= i < |incs| ==> incs[i] in FromPath(dir, parent).value.includes
    requires g in ResolveIncludes(dir, cache, incs, fuel).value.cache && g !in cache
    ensures ReachableIn(dir, parent, g, n)
    decreases fuel, 1, |incs|
  {
    var f := incs[0].AsPackageFile();
    assert forall i :: 0 <= i < |incs[1..]| ==> incs[1..][i] == incs[i + 1];
    if f in cache {
      n := ResolveIncludesAddsReachable(dir, cache, incs[1..], fuel, parent, g);
    } else {
      var o := Resolve(dir, cache, f, fuel).value;
      if g in o.cache {
        var m := ResolveAddsReachable(dir, cache, f, fuel, g);
        assert Step(dir, parent, f);
        StepThenReach(dir, parent, f, g, m);
        n := m + 1;
      } else {
        n := ResolveIncludesAddsReachable(dir, o.cache, incs[1..], fuel, parent, g);
      }
    }
  }

  /** Every entry added after `before` has each of its included package files in `after`. */
  ghost predicate NewClosed(before: Cache, after: Cache)
  {
    forall f, i :: f in after && f !in before && 0 <= i < |after[f].includes| ==>
      after[f].includes[i].AsPackageFile() in after
  }

  /** A resolution adds a file only once the package files it includes are cached, so new entries are closed. */
  lemma {:induction false} ResolveNewClosed(dir: Listing, cache: Cache, file: string, fuel: nat)
    requires Resolve(dir, cache, file, fuel).Some?
    ensures NewClosed(cache, Resolve(dir, cache, file, fuel).value.cache)
    decreases fuel, 0
  {
    if FromPath(dir, file).Ok? && file !in cache {
      var repo := FromPath(dir, file).value;
      var o := ResolveIncludes(dir, cache, repo.includes, fuel - 1).value;
      ResolveIncludesNewClosed(dir, cache, repo.includes, fuel - 1);
      if o.result.Ok? {
        ResolveIncludesCached(dir, cache, repo.includes, fuel - 1);
      }
    }
  }

  lemma {:induction false} ResolveIncludesNewClosed(dir: Listing, cache: Cache, incs: seq<NamespaceInclude>, fuel: nat)
    requires ResolveIncludes(dir, cache, incs, fuel).Some?
    ensures NewClosed(cache, ResolveIncludes(dir, cache, incs, fuel).value.cache)
    decreases fuel, 1, |incs|
  {
    if incs != [] {
      var f := incs[0].AsPackageFile();
      if f in cache {
        ResolveIncludesNewClosed(dir, cache, incs[1..], fuel);
      } else {
        ResolveNewClosed(dir, cache, f, fuel);
        var o := Resolve(dir, cache, f, fuel).value;
        if o.result.Ok? {
          var last := ResolveIncludes(dir, o.cache, incs[1..], fuel).value.cache;
          ResolveIncludesNewClosed(dir, o.cache, incs[1..], fuel);
          ResolveIncludesExtends(dir, o.cache, incs[1..], fuel);
          NewClosedTransitive(o.cache, last, cache);
        }
      }
    }
  }

  lemma NewClosedTransitive(mid: Cache, last: Cache, first: Cache)
    requires NewClosed(first, mid) && NewClosed(mid, last)
    requires forall f :: f in mid ==> f in last && last[f] == mid[f]
    ensures NewClosed(first, last)
  {
  }

  /** In a cache closed under includes that holds `file`, every file reachable from `file` is cached. */
  lemma {:induction false} ClosedHoldsReachable(dir: Listing, c: Cache, file: string, g: string, n: nat)
    requires file in c && NewClosed(map[], c)
    requires forall f :: f in c ==> FromPath(dir, f) == Ok(c[f])
    requires ReachableIn(dir, file, g, n)
    ensures g in c
    decreases n
  {
    if g != file {
      var f :| ReachableIn(dir, file, f, n - 1) && Step(dir, f, g);
      ClosedHoldsReachable(dir, c, file, f, n - 1);
      var i :| 0 <= i < |c[f].includes| && c[f].includes[i].AsPackageFile() == g;
    }
  }

  /** The file is read before the cache is consulted: a read failure is reported even for a cached file, and a cached file that reads is not resolved again. */
  lemma ReadBeforeCache(dir: Listing, cache: Cache, file: string, fuel: nat)
    ensures FromPath(dir, file).Err? ==> Resolve(dir, cache, file, fuel) == Some(Outcome(cache, Err(FromPath(dir, file).error)))
    ensures FromPath(dir, file).Ok? && file in cache ==> Resolve(dir, cache, file, fuel) == Some(Outcome(cache, Ok(())))
  {
  }

  /** One step of the include loop, given how the first include's resolution ends. */
  lemma IncludesStep(dir: Listing, cache: Cache, incs: seq<NamespaceInclude>, fuel: nat,
                     after: Cache, res: Result<(), ParserError>)
    requires incs != []
    requires incs[0].AsPackageFile() in cache ==> after == cache && res == Ok(())
    requires incs[0].AsPackageFile() !in cache ==> Resolve(dir, cache, incs[0].AsPackageFile(), fuel) == Some(Outcome(after, res))
    ensures res.Ok? ==> ResolveIncludes(dir, cache, incs, fuel) == ResolveIncludes(dir, after, incs[1..], fuel)
    ensures res.Err? ==> ResolveIncludes(dir, cache, incs, fuel) == Some(Outcome(after, res))
  {
  }

  /** The cache the source threads through the recursion, a map from package file to repository. */
  class RepositoryCache {
    var entries: Cache

    constructor()
      ensures entries == map[]
    {
      entries := map[];
    }

    /**
     * `from_path_follow_namespaces_and_cache`, for a directory whose includes
     * are ranked by `rank`; any fuel above the file's rank is enough.
     */
    method FollowNamespaces(dir: Listing, file: string, ghost rank: string -> nat, ghost fuel: nat)
      returns (r: Result<(), ParserError>)
      requires Acyclic(dir, rank) && rank(file) < fuel
      modifies this
      ensures Resolve(dir, old(entries), file, fuel) == Some(Outcome(entries, r))
      decreases fuel, 0
    {
      var read := FromPath(dir, file);
      if read.Err? {
        return Err(read.error);
      }
      var repo := read.value;
      if file in entries {
        return Ok(());
      }
      forall i | 0 <= i < |repo.includes|
        ensures rank(repo.includes[i].AsPackageFile()) < fuel - 1
      {
        assert rank(FromPath(dir, file).value.includes[i].AsPackageFile()) < rank(file);
      }
      r := FollowIncludes(dir, repo.includes, rank, fuel - 1);
      if r.Ok? {
        entries := entries[file := repo];
        r := Ok(());
      }
    }

    /** The loop of `from_path_follow_namespaces_and_cache` over one file's includes. */
    method FollowIncludes(dir: Listing, incs: seq<NamespaceInclude>, ghost rank: string -> nat, ghost fuel: nat)
      returns (r: Result<(), ParserError>)
      requires Acyclic(dir, rank)
      requires forall i :: 0 <= i < |incs| ==> rank(incs[i].AsPackageFile()) < fuel
      modifies this
      ensures ResolveIncludes(dir, old(entries), incs, fuel) == Some(Outcome(entries, r))
      decreases fuel, 1
    {
      var i := 0;
      while i < |incs|
        invariant 0 <= i <= |incs|
        invariant ResolveIncludes(dir, old(entries), incs, fuel) == ResolveIncludes(dir, entries, incs[i..], fuel)
      {
        var f := incs[i].AsPackageFile();
        ghost var before, rest := entries, incs[i..];
        assert rest[0] == incs[i];
        if f !in entries {
          var res := FollowNamespaces(dir, f, rank, fuel);
          IncludesStep(dir, before, rest, fuel, entries, res);
          if res.Err? {
            return res;
          }
        } else {
          IncludesStep(dir, before, rest, fuel, entries, Ok(()));
        }
        assert rest[1..] == incs[i + 1..];
        i := i + 1;
      }
      r := Ok(());
    }
  }

  /** `from_path_follow_namespaces`: resolution into a fresh cache, which is returned on success. */
  method FromPathFollowNamespaces(dir: Listing, file: string, ghost rank: string -> nat) returns (r: Result<Cache, ParserError>)
    requires Acyclic(dir, rank)
    ensures Resolve(dir, map[], file, rank(file) + 1).Some?
    ensures r.Ok? <==> Resolve(dir, map[], file, rank(file) + 1).value.result.Ok?
    ensures r.Ok? ==> r.value == Resolve(dir, map[], file, rank(file) + 1).value.cache
    ensures r.Err? ==> r.error == Resolve(dir, map[], file, rank(file) + 1).value.result.error
    ensures r.Ok? ==> forall g :: g in r.value <==> Reachable(dir, file, g)
  {
    var cache := new RepositoryCache();
    var res := cache.FollowNamespaces(dir, file, rank, rank(file) + 1);
    if res.Err? {
      return Err(res.error);
    }
    FreshResolution(dir, file, rank(file) + 1);
    return Ok(cache.entries);
  }

  /**
   * A successful resolution from nothing caches exactly the files reachable
   * from the requested one through includes, each as it reads and decodes.
   */
  lemma FreshResolution(dir: Listing, file: string, fuel: nat)
    requires Resolve(dir, map[], file, fuel).Some? && Resolve(dir, map[], file, fuel).value.result.Ok?
    ensures file in Resolve(dir, map[], file, fuel).value.cache
    ensures forall f :: f in Resolve(dir, map[], file, fuel).value.cache ==>
              FromPath(dir, f) == Ok(Resolve(dir, map[], file, fuel).value.cache[f])
    ensures forall g :: g in Resolve(dir, map[], file, fuel).value.cache <==> Reachable(dir, file, g)
  {
    var c := Resolve(dir, map[], file, fuel).value.cache;
    ResolvedIsCached(dir, map[], file, fuel);
    ResolveExtends(dir, map[], file, fuel);
    ResolveNewClosed(dir, map[], file, fuel);
    forall g | Reachable(dir, file, g)
      ensures g in c
    {
      var n: nat :| ReachableIn(dir, file, g, n);
      ClosedHoldsReachable(dir, c, file, g, n);
    }
    forall g | g in c
      ensures Reachable(dir, file, g)
    {
      var n := ResolveAddsReachable(dir, map[], file, fuel, g);
    }
  }

  /** A file `a` that includes only `b`, which includes nothing, resolves to exactly the two of them. */
  lemma TwoFileExample(dir: Listing, a: string, b: string, ra: Repository, rb: Repository)
    requires a != b
    requires FromPath(dir, a) == Ok(ra) && |ra.includes| == 1 && ra.includes[0].AsPackageFile() == b
    requires FromPath(dir, b) == Ok(rb) && rb.includes == []
    ensures Resolve(dir, map[], a, 2) == Some(Outcome(map[b := rb, a := ra], Ok(())))
  {
    assert Resolve(dir, map[], b, 1) == Some(Outcome(map[b := rb], Ok(())));
    assert ra.includes[1..] == [];
    assert ResolveIncludes(dir, map[], ra.includes, 1) == Some(Outcome(map[b := rb], Ok(())));
  }
}
