/**
 * The caching and cursor logic of the command handlers in pkg/handlers. The
 * HTTP fetch is an input (what the fetch returns for the address asked for),
 * json.Unmarshal is a total decoding function given as a parameter, and the
 * random draw of commandCatch is a parameter. Printing is not modelled.
 */
module Handlers {
  import opened Wrappers
  import opened PokeCache
  import opened Input

  const DefaultApiAddress := "https://pokeapi.co/api/v2/location-area/?limit=20&offset=20"
  const ExploreBaseAddress := "https://pokeapi.co/api/v2/location-area/"
  const PokemonBaseAddress := "https://pokeapi.co/api/v2/pokemon/"

  /** The expiration StartRepl gives both caches: five minutes, in nanoseconds. */
  const ReplCacheExpiration: nat := 5 * 60 * 1_000_000_000

  /** A draw at or below this value catches the pokemon. */
  const CatchThreshold := 40

  /** What GetBodyApiCall returns for an address: the body, or an error message. */
  datatype FetchResult = Fetched(body: seq<byte>) | FetchError(msg: string)

  datatype Error =
    | FetchFailed(msg: string)       // the error GetBodyApiCall returned
    | DecodeFailed                   // json.Unmarshal rejected the body
    | NoPreviousLocations            // "no previous locations found"

  datatype Result<T> = Ok(value: T) | Err(error: Error)

  /** The decoded fields of a location-area page that the handlers use (nil pointers are None). */
  datatype LocationPage = LocationPage(next: Option<string>, previous: Option<string>, names: seq<string>)

  /** The decoded names of the pokemon encountered in an explored area. */
  datatype ExploreArea = ExploreArea(encounters: seq<string>)

  /** The decoded fields of a pokemon record that the handlers use. */
  datatype Pokemon = Pokemon(name: string, height: int, weight: int, baseExperience: int)

  /** The address commandMap fetches: the stored next-page cursor, or the default first page. */
  function MapAddress(locationNext: string): string
  {
    if locationNext == "" then DefaultApiAddress else locationNext
  }

  /** A cursor read from an optional JSON string: the string, or "" for null. */
  function OrEmpty(o: Option<string>): string
  {
    match o
    case Some(s) => s
    case None => ""
  }

  /** Whether a draw catches the pokemon (`rval > 40` escapes). */
  predicate CatchSucceeds(rval: int)
  {
    rval <= CatchThreshold
  }

  /**
   * The get-or-fetch wrapper over a cache whose map is `m`: a read at `now`;
   * on a miss, the fetch, and on its success an Add at `fetchedAt`. Yields the
   * body or the error, and the cache's map afterwards.
   */
  function FetchThrough(m: Entries, expiration: nat, addr: string, fetched: FetchResult,
                        now: int, fetchedAt: int): (res: (Result<seq<byte>>, Entries))
    ensures res.0.Err? <==> Lookup(m, addr, now).None? && fetched.FetchError?
    ensures res.0.Ok? ==> addr in res.1 && res.1[addr].val == res.0.value
    ensures res.0.Err? ==> addr !in res.1
    ensures forall k :: k != addr ==> (k in res.1 <==> k in m) && (k in m ==> res.1[k] == m[k])
  {
    match Lookup(m, addr, now)
    case Some(body) => (Ok(body), m)
    case None =>
      match fetched
      case FetchError(msg) => (Err(FetchFailed(msg)), AfterGet(m, addr, now))
      case Fetched(body) => (Ok(body), Put(AfterGet(m, addr, now), addr, body, fetchedAt, expiration))
  }

  /** commandInspect's lookup: the caught pokemon named by the joined arguments. */
  function Inspect(caught: map<string, Pokemon>, args: seq<string>): Option<Pokemon>
  {
    var name := Concat(args);
    if name in caught then Some(caught[name]) else None
  }

  /** getLocation and exploreLocation, over the cache each of them uses. */
  method GetOrFetch(cache: Cache, addr: string, fetched: FetchResult, now: int, fetchedAt: int)
    returns (r: Result<seq<byte>>)
    modifies cache
    ensures (r, cache.cacheMap) == FetchThrough(old(cache.cacheMap), cache.expiration, addr, fetched, now, fetchedAt)
  {
    var body, found := cache.Get(addr, now);
    if !found {
      match fetched
      case FetchError(msg) =>
        return Err(FetchFailed(msg));
      case Fetched(b) =>
        cache.Add(addr, b, fetchedAt);
        body := b;
    }
    return Ok(body);
  }

  /** The handlers' shared state. */
  class Config {
    var locationPrev: string
    var locationNext: string
    const locationCache: Cache
    const exploreCache: Cache
    var pokemonInCurrentLoc: set<string>
    var caughtPokemon: map<string, Pokemon>

    /** The two caches are distinct objects. */
    predicate Valid()
      reads this
    {
      locationCache != exploreCache
    }

    /** The configuration StartRepl builds before its first prompt. */
    constructor ()
      ensures Valid()
      ensures locationPrev == "" && locationNext == ""
      ensures fresh(locationCache) && fresh(exploreCache)
      ensures locationCache.cacheMap == map[] && locationCache.expiration == ReplCacheExpiration
      ensures exploreCache.cacheMap == map[] && exploreCache.expiration == ReplCacheExpiration
      ensures pokemonInCurrentLoc == {} && caughtPokemon == map[]
    {
      locationPrev, locationNext := "", "";
      locationCache := new Cache(ReplCacheExpiration);
      exploreCache := new Cache(ReplCacheExpiration);
      pokemonInCurrentLoc := {};
      caughtPokemon := map[];
    }

    /** getLocation: get-or-fetch over the location cache. */
    method GetLocation(addr: string, fetched: FetchResult, now: int, fetchedAt: int)
      returns (r: Result<seq<byte>>)
      modifies locationCache
      ensures (r, locationCache.cacheMap) ==
              FetchThrough(old(locationCache.cacheMap), locationCache.expiration, addr, fetched, now, fetchedAt)
    {
      r := GetOrFetch(locationCache, addr, fetched, now, fetchedAt);
    }

    /** exploreLocation: get-or-fetch over the explore cache. */
    method ExploreLocation(addr: string, fetched: FetchResult, now: int, fetchedAt: int)
      returns (r: Result<seq<byte>>)
      modifies exploreCache
      ensures (r, exploreCache.cacheMap) ==
              FetchThrough(old(exploreCache.cacheMap), exploreCache.expiration, addr, fetched, now, fetchedAt)
    {
      r := GetOrFetch(exploreCache, addr, fetched, now, fetchedAt);
    }

    /**
     * commandMap: fetch the page the next-page cursor names (or the first page)
     * and store its next and previous cursors. The source dereferences both
     * without a nil check, so a page that lacks either is excluded.
     */
    method Map(fetched: FetchResult, decode: seq<byte> -> Option<LocationPage>, now: int, fetchedAt: int)
      returns (err: Option<Error>)
      requires Valid()
      requires var res := FetchThrough(locationCache.cacheMap, locationCache.expiration,
                                       MapAddress(locationNext), fetched, now, fetchedAt).0;
               res.Ok? && decode(res.value).Some? ==>
                 decode(res.value).value.next.Some? && decode(res.value).value.previous.Some?
      modifies this`locationNext, this`locationPrev, locationCache
      ensures exploreCache.cacheMap == old(exploreCache.cacheMap)
      ensures var fr := FetchThrough(old(locationCache.cacheMap), locationCache.expiration,
                                     MapAddress(old(locationNext)), fetched, now, fetchedAt);
              locationCache.cacheMap == fr.1 &&
              match fr.0
              case Err(e) =>
                err == Some(e) && locationNext == old(locationNext) && locationPrev == old(locationPrev)
              case Ok(body) =>
                match decode(body)
                case None =>
                  err == Some(DecodeFailed) && locationNext == old(locationNext) && locationPrev == old(locationPrev)
                case Some(page) =>
                  err == None && locationNext == page.next.value && locationPrev == page.previous.value
    {
      var addr := MapAddress(locationNext);
      var r := GetLocation(addr, fetched, now, fetchedAt);
      match r
      case Err(e) =>
        return Some(e);
      case Ok(body) =>
        match decode(body)
        case None =>
          return Some(DecodeFailed);
        case Some(page) =>
          locationNext := page.next.value;
          locationPrev := page.previous.value;
          return None;
    }

    /**
     * commandMapb: with no previous-page cursor, fail without touching anything;
     * otherwise fetch that page and store its cursors, "" for a null one.
     */
    method Mapb(fetched: FetchResult, decode: seq<byte> -> Option<LocationPage>, now: int, fetchedAt: int)
      returns (err: Option<Error>)
      requires Valid()
      modifies this`locationNext, this`locationPrev, locationCache
      ensures exploreCache.cacheMap == old(exploreCache.cacheMap)
      ensures old(locationPrev) == "" ==>
                err == Some(NoPreviousLocations) && locationCache.cacheMap == old(locationCache.cacheMap)
                && locationNext == old(locationNext) && locationPrev == old(locationPrev)
      ensures old(locationPrev) != "" ==>
              var fr := FetchThrough(old(locationCache.cacheMap), locationCache.expiration,
                                     old(locationPrev), fetched, now, fetchedAt);
              locationCache.cacheMap == fr.1 &&
              match fr.0
              case Err(e) =>
                err == Some(e) && locationNext == old(locationNext) && locationPrev == old(locationPrev)
              case Ok(body) =>
                match decode(body)
                case None =>
                  err == Some(DecodeFailed) && locationNext == old(locationNext) && locationPrev == old(locationPrev)
                case Some(page) =>
                  err == None && locationNext == OrEmpty(page.next) && locationPrev == OrEmpty(page.previous)
    {
      if locationPrev == "" {
        return Some(NoPreviousLocations);
      }
      var r := GetLocation(locationPrev, fetched, now, fetchedAt);
      match r
      case Err(e) =>
        return Some(e);
      case Ok(body) =>
        match decode(body)
        case None =>
          return Some(DecodeFailed);
        case Some(page) =>
          if page.next.Some? {
            locationNext := page.next.value;
          } else {
            locationNext := "";
          }
          if page.previous.Some? {
            locationPrev := page.previous.value;
          } else {
            locationPrev := "";
          }
          return None;
    }

    /**
     * commandExplore: fetch the area named by the joined arguments through the
     * explore cache and replace the set of pokemon in the current location with
     * exactly the names encountered there.
     */
    method Explore(args: seq<string>, fetched: FetchResult, decode: seq<byte> -> Option<ExploreArea>,
                   now: int, fetchedAt: int)
      returns (err: Option<Error>)
      requires Valid()
      modifies this`pokemonInCurrentLoc, exploreCache
      ensures locationCache.cacheMap == old(locationCache.cacheMap)
      ensures var fr := FetchThrough(old(exploreCache.cacheMap), exploreCache.expiration,
                                     ExploreBaseAddress + Concat(args), fetched, now, fetchedAt);
              exploreCache.cacheMap == fr.1 &&
              match fr.0
              case Err(e) =>
                err == Some(e) && pokemonInCurrentLoc == old(pokemonInCurrentLoc)
              case Ok(body) =>
                match decode(body)
                case None =>
                  err == Some(DecodeFailed) && pokemonInCurrentLoc == old(pokemonInCurrentLoc)
                case Some(area) =>
                  err == None && forall n :: n in pokemonInCurrentLoc <==> n in area.encounters
    {
      var addr := ExploreBaseAddress + Concat(args);
      var r := ExploreLocation(addr, fetched, now, fetchedAt);
      match r
      case Err(e) =>
        return Some(e);
      case Ok(body) =>
        match decode(body)
        case None =>
          return Some(DecodeFailed);
        case Some(area) =>
          pokemonInCurrentLoc := {};
          var i := 0;
          while i < |area.encounters|
            invariant 0 <= i <= |area.encounters|
            invariant forall n :: n in pokemonInCurrentLoc <==> n in area.encounters[..i]
            modifies this`pokemonInCurrentLoc
          {
            pokemonInCurrentLoc := pokemonInCurrentLoc + {area.encounters[i]};
            i := i + 1;
          }
          assert area.encounters[..i] == area.encounters;
          return None;
    }

    /**
     * commandCatch: only a pokemon of the current location can be caught; a
     * failed fetch is silently ignored; the draw `rval` (rand.Intn of the base
     * experience, which must be positive) catches it exactly when it is at most 40.
     * `fetched` is what the fetch of PokemonBaseAddress + Concat(args) returns;
     * this fetch does not go through a cache.
     */
    method Catch(args: seq<string>, fetched: FetchResult, decode: seq<byte> -> Option<Pokemon>, rval: int)
      returns (err: Option<Error>)
      requires Concat(args) in pokemonInCurrentLoc && fetched.Fetched? && decode(fetched.body).Some? ==>
                 0 <= rval < decode(fetched.body).value.baseExperience
      modifies this`caughtPokemon
      ensures var name := Concat(args);
              if name !in old(pokemonInCurrentLoc) || fetched.FetchError? then
                err == None && caughtPokemon == old(caughtPokemon)
              else
                match decode(fetched.body)
                case None =>
                  err == Some(DecodeFailed) && caughtPokemon == old(caughtPokemon)
                case Some(p) =>
                  err == None &&
                  caughtPokemon == if CatchSucceeds(rval) then old(caughtPokemon)[name := p] else old(caughtPokemon)
    {
      var name := Concat(args);
      if name !in pokemonInCurrentLoc {
        return None;
      }
      match fetched
      case FetchError(_) =>
        return None;
      case Fetched(body) =>
        match decode(body)
        case None =>
          return Some(DecodeFailed);
        case Some(p) =>
          if rval > CatchThreshold {
            return None;
          }
          caughtPokemon := caughtPokemon[name := p];
          return None;
    }
  }

  // ----- What the handlers promise, stated over values -----

  /** A hit is served from the cache, whatever the fetch would have returned, and changes nothing. */
  lemma FetchThroughHitIgnoresFetch(m: Entries, expiration: nat, addr: string, f1: FetchResult, f2: FetchResult,
                                    now: int, t1: int, t2: int)
    requires Lookup(m, addr, now).Some?
    ensures FetchThrough(m, expiration, addr, f1, now, t1) == FetchThrough(m, expiration, addr, f2, now, t2)
    ensures FetchThrough(m, expiration, addr, f1, now, t1) == (Ok(m[addr].val), m)
  {
  }

  /** A miss whose fetch succeeds returns the fetched body and stores it under the address. */
  lemma FetchThroughMissStores(m: Entries, expiration: nat, addr: string, body: seq<byte>, now: int, fetchedAt: int)
    requires Lookup(m, addr, now).None?
    ensures FetchThrough(m, expiration, addr, Fetched(body), now, fetchedAt) ==
            (Ok(body), m[addr := Entry(fetchedAt + expiration, body)])
  {
    assert AfterGet(m, addr, now)[addr := Entry(fetchedAt + expiration, body)]
        == m[addr := Entry(fetchedAt + expiration, body)];
  }

  /** A miss whose fetch fails returns the error and adds nothing (only the stale entry goes). */
  lemma FetchThroughMissFails(m: Entries, expiration: nat, addr: string, msg: string, now: int, fetchedAt: int)
    requires Lookup(m, addr, now).None?
    ensures FetchThrough(m, expiration, addr, FetchError(msg), now, fetchedAt) == (Err(FetchFailed(msg)), m - {addr})
    ensures addr !in FetchThrough(m, expiration, addr, FetchError(msg), now, fetchedAt).1
  {
  }

  /**
   * Memoisation: once a miss has fetched and stored a body, every later call
   * within the expiration returns that body without using its own fetch.
   */
  lemma FetchThroughMemoizes(m: Entries, expiration: nat, addr: string, body: seq<byte>, now: int, fetchedAt: int,
                             f2: FetchResult, now2: int, t2: int)
    requires Lookup(m, addr, now).None?
    requires now2 <= fetchedAt + expiration
    ensures var m1 := FetchThrough(m, expiration, addr, Fetched(body), now, fetchedAt).1;
            FetchThrough(m1, expiration, addr, f2, now2, t2) == (Ok(body), m1)
  {
  }

  /** commandMap's address: the default page exactly when no next-page cursor is stored. */
  lemma MapAddressDefault(locationNext: string)
    ensures MapAddress(locationNext) == DefaultApiAddress <==> locationNext == "" || locationNext == DefaultApiAddress
    ensures locationNext != "" ==> MapAddress(locationNext) == locationNext
    ensures MapAddress(locationNext) != ""
  {
  }

  /** A pokemon just stored by commandCatch is what commandInspect finds under its joined name. */
  lemma CaughtIsInspectable(caught: map<string, Pokemon>, args: seq<string>, other: seq<string>, p: Pokemon)
    ensures Inspect(caught[Concat(args) := p], args) == Some(p)
    ensures Concat(other) != Concat(args) ==> Inspect(caught[Concat(args) := p], other) == Inspect(caught, other)
  {
  }
}
