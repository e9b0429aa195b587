# pokedexcli: the expiring response cache and the handlers' cursor logic

This project models, in Dafny, the core of a command-line Pokédex explorer:

- **The time-expiring cache** (`pkg/pokecache`). It maps request addresses to byte payloads. Each entry stores the absolute time `expTime` = insertion time + the cache's fixed `expiration`. `Add` inserts or overwrites.
  `Get` returns a live entry; when it finds a stale entry it deletes it and reports a miss. Each tick of `ReadLoop` runs a sweep that deletes every stale entry.
  The model is the class `PokeCache.Cache`: a `cacheMap: map<string, Entry>` field and a constant `expiration`. Its methods say exactly what the new map is. Pure functions (`Lookup`, `Put`, `AfterGet`, `Swept`) state the same behaviour over map values, and lemmas about those functions give the cache's promises.
  An entry is stale only when the clock is *strictly* after `expTime` (`time.Now().After`). At `now == expTime` it is still a hit.
- **Histories of cache calls** (`CacheTrace`). A run of `Add`/`Get`/`Sweep` calls starts from a fresh cache. At the end of any such run, a read hits exactly when the most recent `Add` of the key has not expired, and it then returns that `Add`'s payload. So, for a single caller, a read can never return a payload that was overwritten or has gone stale.
- **The command handlers' state logic** (`pkg/handlers`), as the class `Handlers.Config`:
  - the get-or-fetch wrapper over each cache;
  - the next/previous page cursors of `map` and `mapb`;
  - the rebuild of the current location's pokemon set in `explore`;
  - the membership gate and catch threshold of `catch`;
  - the lookup of `inspect`;
  - `cleanInput` tokenisation (module `Input`).

Time is an integer count of nanoseconds that the caller passes in (`now`). The HTTP fetch becomes an input value: `FetchResult`, which is what the fetch returns for the address asked for. `json.Unmarshal` becomes a total decoding function passed as a parameter. The random draw of `catch` is a parameter.

## Model

| member | source | states |
|---|---|---|
| PokeCache.Cache.constructor | pokedexcli/pkg/pokecache/pokecache.go:21-28 | NewCache yields an empty map whose expiration is the argument; a non-positive period is refused as `time.NewTicker` does |
| PokeCache.Cache.Add | pokedexcli/pkg/pokecache/pokecache.go:31-38 | afterwards the key holds exactly one entry, with the given payload and expiry now + expiration, replacing any earlier one; every other key is untouched |
| PokeCache.Cache.Get | pokedexcli/pkg/pokecache/pokecache.go:41-53 | hit iff the key is present and now <= its expTime; a hit returns the stored payload and leaves the map (and the expiry) unchanged; a miss returns an empty payload and the map minus that key; an absent key changes nothing |
| PokeCache.Cache.Sweep | pokedexcli/pkg/pokecache/pokecache.go:61-67 | one pass over every key leaves exactly the entries with expTime >= now, unchanged, and removes all others |
| PokeCache.AddThenGetHits | pokedexcli/pkg/pokecache/pokecache.go:31-50 | after Add at t, a read at any time up to t + expiration returns the added payload |
| PokeCache.AddThenGetExpires | pokedexcli/pkg/pokecache/pokecache.go:31-48 | after Add at t, a read strictly after t + expiration misses and removes the key |
| PokeCache.OverwriteResetsExpiry | pokedexcli/pkg/pokecache/pokecache.go:31-50 | a second Add at t2 makes the key live with the second payload until t2 + expiration, whatever the first Add stored |
| PokeCache.OtherKeysIndependent | pokedexcli/pkg/pokecache/pokecache.go:37-47 | an Add of one key, or the delete a read of one key performs, never changes what any other key shows at any time |
| PokeCache.GetDeletesOnlyStale | pokedexcli/pkg/pokecache/pokecache.go:44-52 | the lazy delete of a read at now is invisible to every read at now or later |
| PokeCache.SweepKeepsExactlyLive | pokedexcli/pkg/pokecache/pokecache.go:62-66 | a key survives a sweep at now iff it held an entry with expTime >= now, with its entry unchanged; the sweep is invisible to reads at now or later |
| PokeCache.SweepIdempotent | pokedexcli/pkg/pokecache/pokecache.go:62-66 | sweeping twice at the same time equals sweeping once |
| PokeCache.SweepMonotone | pokedexcli/pkg/pokecache/pokecache.go:62-66 | a sweep at t1 followed by one at t2 >= t1 equals the sweep at t2 alone |
| CacheTrace.RunHoldsLastWrite | pokedexcli/pkg/pokecache/pokecache.go:31-67 | after any history of Add/Get/Sweep calls, an entry the cache holds for a key is exactly the one the most recent Add of that key stored |
| CacheTrace.RunKeepsLiveLastWrite | pokedexcli/pkg/pokecache/pokecache.go:41-67 | if every call ran no later than now and the most recent Add of a key has not expired at now, the cache still holds that entry: only staleness removes entries |
| CacheTrace.HitIsLatestLiveWrite | pokedexcli/pkg/pokecache/pokecache.go:31-67 | a read at now after a history hits iff the most recent Add of the key has not expired, and then returns that Add's payload |
| CacheTrace.SweepReclaimsUnread | pokedexcli/pkg/pokecache/pokecache.go:57-67 | a sweep after the expiry of a key's last Add removes the key even though it was never read |
| Handlers.FetchThrough | pokedexcli/pkg/handlers/handlers.go:386-414 | get-or-fetch fails exactly on a miss whose fetch fails, and then leaves no entry for the address; on success the cache holds the returned body under the address; no other key changes |
| Handlers.GetOrFetch | pokedexcli/pkg/handlers/handlers.go:386-414 | the body returned and the cache afterwards are those of a read at now followed, on a miss, by the fetch and, on its success, an Add at the fetch time |
| Handlers.Config.GetLocation | pokedexcli/pkg/handlers/handlers.go:386-398 | getLocation is get-or-fetch over the location cache |
| Handlers.Config.ExploreLocation | pokedexcli/pkg/handlers/handlers.go:402-414 | exploreLocation is get-or-fetch over the explore cache |
| Handlers.FetchThroughHitIgnoresFetch | pokedexcli/pkg/handlers/handlers.go:389-397 | on a hit the cached body is returned, the cache is unchanged, and the result does not depend on the fetch |
| Handlers.FetchThroughMissStores | pokedexcli/pkg/handlers/handlers.go:389-397 | on a miss with a successful fetch the fetched body is returned and stored under the address with expiry fetch time + expiration |
| Handlers.FetchThroughMissFails | pokedexcli/pkg/handlers/handlers.go:389-394 | on a miss with a failed fetch the fetch's error is returned and nothing is added (the address holds no entry) |
| Handlers.FetchThroughMemoizes | pokedexcli/pkg/handlers/handlers.go:386-398 | after a miss has fetched and stored a body, any later call within the expiration returns that body without using its own fetch and changes nothing |
| Handlers.MapAddressDefault | pokedexcli/pkg/handlers/handlers.go:418-421 | commandMap fetches the default first page when the next cursor is empty and the stored cursor otherwise |
| Handlers.Config.Map | pokedexcli/pkg/handlers/handlers.go:417-441 | fetches that address through the location cache, leaving the explore cache alone; on a fetch or decode error returns it and keeps both cursors; otherwise stores the page's next and previous cursors |
| Handlers.Config.Mapb | pokedexcli/pkg/handlers/handlers.go:444-478 | with an empty previous cursor returns "no previous locations found" and changes neither cursors nor cache; otherwise fetches that page through the location cache (the explore cache is untouched) and stores its cursors, "" for a null one; errors keep the cursors |
| Handlers.Config.Explore | pokedexcli/pkg/handlers/handlers.go:480-504 | fetches the area named by the joined arguments through the explore cache, leaving the location cache alone; on success the current-location set becomes exactly the encountered names; on error it is unchanged |
| Handlers.Config.Catch | pokedexcli/pkg/handlers/handlers.go:507-536 | a name not in the current location, or a failed fetch, leaves the caught map unchanged with no error; a decode error is returned; otherwise the pokemon is stored under its name iff the draw is <= 40, and no other key changes |
| Handlers.CaughtIsInspectable | pokedexcli/pkg/handlers/handlers.go:539-549 | after a catch stores a pokemon under a name, inspect with arguments joining to that name finds it, and other names see what they saw before |
| Handlers.Config.constructor | pokedexcli/pkg/handlers/handlers.go:613-618 | StartRepl's initial state: empty cursors, two distinct fresh empty caches with a five-minute expiration, no pokemon in the current location, none caught |
| Input.ToLower | pokedexcli/pkg/handlers/handlers.go:606 | lower-casing keeps the length, maps each ASCII letter 'A'..'Z' to its lower-case letter (code + 32), keeps every other character, and so keeps white space where it was |
| Input.SkipSpaces | pokedexcli/pkg/handlers/handlers.go:607 | the result is no longer than the input and does not start with white space |
| Input.SkipSpacesDropsBlanks | pokedexcli/pkg/handlers/handlers.go:607 | SkipSpaces keeps a suffix of the input and drops only white space, so it is the input minus its leading white space |
| Input.WordLength | pokedexcli/pkg/handlers/handlers.go:607 | the length is at most the input's, and positive when the input starts with a non-space character |
| Input.WordLengthIsWord | pokedexcli/pkg/handlers/handlers.go:607 | the prefix of that length holds no white space and is followed by white space or the end: it is the longest such prefix |
| Input.Fields | pokedexcli/pkg/handlers/handlers.go:607 | every word strings.Fields returns is non-empty and holds no white space |
| Input.FieldsOfBlanks | pokedexcli/pkg/handlers/handlers.go:607 | a string of white space only has no words |
| Input.FieldsOfWord | pokedexcli/pkg/handlers/handlers.go:607 | a non-empty string without white space is exactly one word, itself |
| Input.FieldsSplitAtSpace | pokedexcli/pkg/handlers/handlers.go:607 | words break at every white-space character: the words of a + [c] + b, for white space c, are the words of a followed by the words of b |
| Input.FieldsKeepsEveryOtherChar | pokedexcli/pkg/handlers/handlers.go:607 | the words run together are exactly the input's non-space characters, in order |
| Input.FieldsOfUnwords | pokedexcli/pkg/handlers/handlers.go:607 | splitting well-formed words joined by single blanks gives back the same words |
| Input.CleanInput | pokedexcli/pkg/handlers/handlers.go:605-609 | cleanInput yields non-empty words without white space or upper-case ASCII letters |
| Input.CleanInputWords | pokedexcli/pkg/handlers/handlers.go:605-609 | the words together hold every non-space character of the lower-cased line; a line of white space has no words; a line without white space is one word, the line lower-cased |
| Input.CleanInputSplitsAtSpace | pokedexcli/pkg/handlers/handlers.go:605-609 | cleanInput breaks the line at every white-space character into the words of the part before and the words of the part after |
| Input.ConcatAppend | pokedexcli/pkg/handlers/handlers.go:508 | strings.Join(words, "") of two lists of words concatenated is the join of the first followed by the join of the second |
| Input.JoinedWordsIgnoreSpacing | pokedexcli/pkg/handlers/handlers.go:508 | the name rebuilt by joining the words of a line is the join of the words before any white-space character followed by the join of the words after it |

## Left out

- PokeCache.Cache.constructor: `NewCache` panics inside `time.NewTicker` on a non-positive expiration. The model does not model that panic; it requires `expiration > 0` instead.
- The goroutine, the ticker wait and the infinite loop of `ReadLoop`, and the `sync.RWMutex`. These are concurrency, and the model is sequential. This also leaves out that `Get` deletes while holding only a read lock. `Sweep` models one pass of the loop body.
- `ReadLoop` reads the clock once per key. `Sweep` uses one `now` for the whole pass.
- Wall-clock time and monotonic-clock details. Times are unbounded integers, so the overflow of `time.Time.Add` is not modelled.
- `GetBodyApiCall` in `pkg/apiCalls/apiCalls.go` (HTTP GET, body read, status check). It is network I/O and is replaced by the `FetchResult` input.
- The JSON response structs and `json.Unmarshal`. This is foreign decoding, replaced by a decoding function parameter that yields only the fields the handlers read.
- Handlers.Config.Catch: `rand.Intn` is not modelled; the draw is a parameter. `Catch` requires it to lie in [0, base experience), which also rules out the panic on a non-positive base experience.
- Handlers.Config.Map: the source dereferences `Next` and `Previous` without a nil check and panics on a page that lacks either. The model states this as a precondition on the decoded page it reads; it does not model the panic.
- All printing: help, the lists of names printed by `map`, `mapb`, `explore` and `pokedex`, and inspect's output. Also `os.Exit`, the command table and the `StartRepl` scanner loop. These are presentation and REPL plumbing. `Handlers.Inspect` models only inspect's lookup.
- Input.ToLower: lower-cases only ASCII letters. Unicode case mapping is not modelled.
- Input.Fields: treats only the Latin-1 white-space characters as separators. The other Unicode white space is not modelled.
- `pokemonInCurrentLoc` is a `map[string]bool` that only ever stores `true`. It is modelled as a set of names.
