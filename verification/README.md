# Verified models of the Almide toolchain's algorithms

Almide's compiler driver and its scripts hold several self-contained algorithms. This project
models them in Dafny and proves what they are for:

- **Dependencies** (`DependencyWalk`, `DependencySelection`, `DependencyOrder`, `DependencyChoice`,
  `DependencyKeys`, `DependencyLock`): the recursive walk of Minimal Version Selection, with its visited set, owner
  check and budgets, when it succeeds and when it builds the same in every order, and the lock
  entries it leads to. The class `Walk` updates the walk's fields in place; the lemmas are about
  the same steps on values.
- **The shared fetch cache** (`CacheEntry`, `CachePath`, `CacheDirectory`): the lock, clone-aside
  and rename protocol as a state machine over all interleavings and crashes, the encoding of a
  source's URL as a sequence of directory names, and the directory those lead to.
- **Case mapping** (`HexFields`, `CaseRuns`, `CaseLookup`, `RangeTable`, `Utf8`, `CaseWalk`,
  `CaseTables`): the generator's run tables and hexadecimal text, the emitted binary searches,
  the UTF-8 decoder and encoder, the walk into a fixed buffer and the Final_Sigma scans.
- **Fixpoints and graph searches** (`SelfHostScan`, `SelfHostLink`, `SelfHostSources`,
  `SelfHostRounds`, `SelfHostSurfaces`, `SelfModules`, `SelfLoading`, `SelfResolution`, `SelfFiles`,
  `SelfEntries`, `SelfCollisions`, `CarriesString`, `CanErr`): the self-host linker's demand closure and rounds,
  module loading with cycle detection, type-graph reachability, and the can-err fixpoint.
- **Planning** (`TestPlan`, `TestPlanChains`, `PassBisect`): first-fit batches of test files, and the
  greedy search for the pass pairs to declare.
- **Parsers, printers and string metrics** (`EditDistance`, `OneEdit`, `CfgTokens`, `CfgKey`,
  `JsonEscape`, `WasmImports`, `ManifestLines`).

`Options` holds the two result types the others share. `dafny verify dfyconfig.toml` checks
everything.

## What the models take as given

- `DependencyWalk.World`: version parsing, the owner of a URL, the trust list, and what fetching a
  request yields are functions of the request. Versions are ordered by their numbers and a real
  rank for pre-release and build parts.
- `CacheEntry`: test, lock, rename, remove and the end of a clone are atomic steps; a rename
  replaces nothing that is present; a call can remove the temporary directory it made.
- `CaseWalk.GoodRules`: targets are one to three scalar values below 0xF00000, ASCII maps by
  arithmetic, and no row's encoding is longer than three times its source's.
- `SelfHostScan.World`: what a body mentions, `reach_within`, checking and lowering are functions;
  `GoodWorld` says that `reach_within` keeps declared roots and stays inside the source, and that
  lowering gives a module the kept functions. Where `reach_within` is a closure (`IsClosure`), the
  invariant also bounds what is carried. All sources name finitely many surfaces.
- `SelfModules.Project`: the source files under `src/`, which of them parse and their imports, and
  the modules a package import loads.
- `CacheDirectory.OnDisk`: a directory is found by following its names, `.` and `..` included, and
  no link stands below the cache.
- `JsonEscape`: `hidden` is any predicate on characters that holds of no printable ASCII character
  (only cleanness needs that). `WasmImports`: `text` is any decoding of names.
- `TestPlan`: the owner sets of each file. `PassBisect`: the compiler answers the same pairs in
  the same way each time.

## Where the code and its documentation differ

- `dep_cache_root` (src/project_fetch.rs:68-75) calls the path an injective function of the URL and
  says that two sources never share a directory. As a sequence of names it is injective, except that
  `://x` and `x` share one (`CachePath.SamePathIffSameSource`). As a directory it is not: the last
  name of a split piece can be `.` or `..` (`CachePath.LongPieceCanLeaveDots`), and then two sources
  can share one (`CacheDirectory.TwoSourcesOneDirectory`). `CacheDirectory.SameDirectoryIff` says
  exactly when, and `CacheDirectory.PlainSourcesShareIff` that sources without such a piece do not.
- Minimal Version Selection is documented not to depend on declaration order
  (src/project_fetch.rs:955-966). Requests without a version for two branches of one repository
  share a visit key, and then it does (`DependencyLock.BranchesShareAKey`). Success itself can
  depend on the order through the depth budget (`DependencyLock.SuccessDependsOnOrder`);
  `DependencyOrder.AlwaysSucceedsIff` says when every order succeeds.
  Where several sources declare a package at its greatest version, the first one walked is built
  (`DependencyChoice.ListedFirstIsBuilt`); `DependencyChoice.OneBuildIff` says when the order does
  not matter.
- The generated comment words Final_Sigma as the Unicode rule (scripts/gen-case-tables.py:243-248).
  The two agree exactly when no code point is both cased and case-ignorable
  (`CaseTables.FinalSigmaAgreesIffDisjoint`).
- A module's identity is documented as its path under `src/` (docs/specs/module-system.md:65-69,
  src/resolve.rs:427-449), but the loader compares keys. `self.self.x` and a reserved `self.x` share
  one (`SelfModules.SameKeyIffSamePath`). The root's key is an alias or the package's name, which can
  be a module's key (`SelfResolution.RootKeyMeetsIff`): then an acyclic project is refused as circular
  (`SelfCollisions.PackageNamedLikeItsModule`) or a module is never loaded
  (`SelfCollisions.ModuleIsSkipped`). A dependency's submodule can share one with a project module
  (`SelfCollisions.LoadedTwice`). `SelfResolution.LoadsRightIff` says exactly when all is well. And
  one file can have two paths, `x` and `x.mod` (`SelfCollisions.FileUnderTwoKeys`);
  `SelfFiles.FilesOnceIff` says when a file is loaded more than once.
- In one batch the owner sets of a name need not be nested in each other
  (`TestPlanChains.BatchesNeedNotBeChains`; `TestPlanChains.OnlyChainsIff` says for which families of
  files they are); what the comment at src/compile_driver.rs:660 promises holds
  (`TestPlan.BatchesRecord`).

## Model

| member | source | states |
|---|---|---|
| `DependencyWalk.Walk.Deps` | src/project_fetch.rs:986-1008 | The loop over one manifest's dependencies leaves the walk in the state, and with the outcome, of the recursive specification `WalkDeps`; it ends for every manifest function, cyclic or endlessly expanding ones too |
| `DependencyWalk.Walk.FetchOne` | src/project_fetch.rs:1010-1138 | One request: visited, refused by a budget, or fetched, filed under its package and walked, exactly as `WalkOne` says |
| `DependencyWalk.WalkDeps` | src/project_fetch.rs:986-1008 | Visit keys are never forgotten; with `WalkOne` it is the walk on values that the lemmas below are about |
| `DependencySelection.EveryRunIsBounded` | src/project_fetch.rs:986-1050 | In every run, successful or not: at most `dependency_count` fetches, each directly after its own owner check, which passed, none deeper than `dependency_depth`, and no two for one visit key |
| `DependencySelection.WalkReachesOnlyReachable` | src/project_fetch.rs:1010-1138 | Every request the walk fetched is reachable from the roots through requirement lists |
| `DependencySelection.SelectsGreatestReachable` | src/project_fetch.rs:951-966 | Minimal Version Selection: after success each package occurs once, the packages are exactly those some reachable request is filed under, and each holds the greatest version a reachable request asks for (given that a visit key determines what its manifest says) |
| `DependencySelection.GreatestIsUnique` | src/project_fetch.rs:951-966 | The greatest requested version of a package is one version |
| `DependencySelection.OrderDoesNotMatter` | src/project_fetch.rs:951-966 | Given that a visit key determines what is requested, permuting the root's dependencies and those of every manifest leaves the map from packages to selected versions unchanged, whenever both walks succeed |
| `DependencyKeys.SameKeyIff` | src/project_fetch.rs:1016-1026 | Where the parts hold no mark of the key, two requests share a visit key if and only if they name one source (a path, or a URL and a directory) at one version |
| `DependencyKeys.BuildsTheGreatest` | src/project_fetch.rs:951-1138 | If a source at a version is one checkout: after success each package has one entry, every reachable request has the entry of its package and it is of no smaller version, and every entry is the source, version and directory of some reachable request |
| `DependencyKeys.SourceFixesKey` | src/project_fetch.rs:1016-1027 | If a source at a version is one checkout, a visit key determines what is requested |
| `DependencyKeys.VersionAsWritten` | src/project_fetch.rs:800-820 | The version asked for is the written version from its first digit on, else the tag without leading `v`s, with missing numbers as zero, else `0.0.0` |
| `DependencyKeys.SharePackageIff` | src/project.rs:8-30 | Two versions share a package exactly if the names agree and both have one non-zero major, or both major zero and one minor, or one has the major that is the other's minor behind a zero |
| `DependencyKeys.UnparsedSharesIff` | src/project.rs:24-30 | A version that does not parse shares a package with the `0.0.x` of its name |
| `DependencyKeys.GreaterPartWins` | src/project_fetch.rs:949-953 | The first of major, minor, patch and the rest in which two versions differ decides which is greater |
| `DependencyKeys.FiledByManifest` | src/project_fetch.rs:937-947 | A request is filed under the name its own manifest declares, else under the name it is asked by |
| `DependencyKeys.WalkedIsAsked` | src/project_fetch.rs:986-1138 | Every walked request is a root or listed by the readable manifest of one walked before it |
| `DependencyKeys.AskedIsWalked` | src/project_fetch.rs:986-1138 | After success the roots and all that readable manifests of walked requests list are walked, up to requests with one key |
| `DependencyOrder.NothingFails` | src/project_fetch.rs:986-1050 | A walk succeeds if everything reachable passes its owner check and can be fetched, the reachable keys fit the count budget, and no chain of pairwise different keys is longer than the depth budget |
| `DependencyOrder.SuccessShows` | src/project_fetch.rs:986-1050 | One success shows that everything reachable passes and the keys fit the count budget, where requests with one key agree |
| `DependencyOrder.DeepChainFails` | src/project_fetch.rs:1031-1050 | A chain of different keys longer than the depth budget makes some order fail: the one that lists each next request first |
| `DependencyOrder.AlwaysSucceedsIff` | src/project_fetch.rs:986-1138 | Where requests with one key agree, every order succeeds if and only if everything reachable passes, the keys fit the count budget, and no chain of different keys is longer than the depth budget |
| `DependencyOrder.WideDepthIgnoresOrder` | src/project_fetch.rs:1031-1050 | With a depth budget no smaller than the count budget, a success in one order is a success in every order (where requests with one key agree) |
| `DependencyChoice.BuiltCanComeFirst` | src/project_fetch.rs:1117-1133 | Given that a visit key determines what is requested: what a successful walk builds for a package was asked for by a request that can come first: it has the greatest version, and a chain of different keys leads to it past no other such request |
| `DependencyChoice.FirstCanBeBuilt` | src/project_fetch.rs:1117-1133 | Given the same, for every request that can come first there is an order which, if it succeeds, builds its source and directory |
| `DependencyChoice.OneBuildIff` | src/project_fetch.rs:951-1138 | Given the same, and where every order succeeds, the same source and directory are built in all of them if and only if the requests that can come first for a package agree in theirs |
| `DependencyChoice.AgreeingIsOneBuild` | src/project_fetch.rs:951-1138 | Given the same, if those agree, any two orders that succeed build the same |
| `DependencyChoice.AllAgreeingIsOneBuild` | src/project_fetch.rs:951-1138 | Given the same, it is enough that all requests for a package's greatest version agree |
| `DependencyChoice.ListedFirstIsBuilt` | src/project_fetch.rs:1117-1133 | Two sources for one package at one version: whichever is listed first is built |
| `DependencyChoice.HiddenSourceIsNeverBuilt` | src/project_fetch.rs:1117-1133 | Not all of them need to agree: a source that only the package itself from another source asks for is built in no order |
| `DependencyLock.BranchesShareAKey` | src/project_fetch.rs:1018-1027 | Where a visit key does not determine what is requested the law is false: two branches of one repository share a visit key, and which one is walked depends on the order |
| `DependencyLock.SuccessDependsOnOrder` | src/project_fetch.rs:1031-1050 | Whether a walk succeeds can depend on the order, through the depth budget: concrete manifests |
| `DependencyLock.ResolvedLockEntries` | src/project_fetch.rs:765-798 | The lock entries of the direct dependencies, in order, are the specified ones |
| `DependencyLock.LockEntryIsTheSelection` | src/project_fetch.rs:765-798 | After any walk, an entry written for a direct dependency names source, ref, commit and subdirectory of one walked request of the selected package whose checkout is the selected directory |
| `DependencyLock.LockEntryNamesTheMaker` | src/project_fetch.rs:765-798 | If a directory belongs to one source at one commit, those are the source and commit of the request that made the selection |
| `DependencyLock.LockEntryExistsWhenBuilt` | src/project_fetch.rs:765-798 | A direct dependency gets an entry if and only if its own fetch and some fetch of the selected checkout recorded a commit |
| `DependencyLock.LockEntryIff` | src/project_fetch.rs:765-798 | An entry is written exactly for the first fetch of a request with the dependency's name, source, directory and ref, the selected entry of its package, and the first fetch that entry's checkout came from, whose source, ref, commit and directory it holds |
| `DependencyLock.RefNameIs` | src/project_fetch.rs:32-34 | The ref of a request is its tag, else its branch, else `main` |
| `CacheEntry.StepKeepsSafe` | src/project_fetch.rs:256-366 | Every step of a locked fetcher, a lock-free older fetcher, a remover or a crash keeps the safety invariant |
| `CacheEntry.RunsAreSafe` | src/project_fetch.rs:256-366 | In every interleaving the entry is absent or one complete checkout, at most one call works under the lock, a fetcher's Ok means it saw the entry, its error that it could not acquire the lock, or found none and was offline or had failed, a remover's Ok that it found or made the entry absent, its error that it could not acquire the lock, or failed and saw it, and no call that returned leaves its temporary directory |
| `CacheEntry.SawMeansPresent` | src/project_fetch.rs:331-366 | A call that saw the entry: the entry was present in a state of the run during that call |
| `CacheEntry.OkSawAWholeCheckout` | src/project_fetch.rs:331-366 | A fetcher's Ok: at some moment of its call the whole checkout was there |
| `CacheEntry.RemovedMeansAbsent` | src/project_fetch.rs:300-315 | A remover's Ok: at some moment of its call the entry was absent |
| `CacheEntry.ErrorMeansFailure` | src/project_fetch.rs:300-366 | An error: the lock could not be acquired; or a fetcher was offline or had failed, and the entry was absent at some moment of its call; or a remover's rename failed, and it was present |
| `CacheEntry.FetcherAlone` | src/project_fetch.rs:333-366 | A fetcher on its own returns at once if the entry is there, refuses when offline, and else fills it with one clone, releasing the lock and leaving nothing behind |
| `CacheEntry.RemoverAlone` | src/project_fetch.rs:300-315 | A remover on its own leaves the entry absent and nothing behind, unless the name it moves the entry to is taken: then it changes nothing and errs |
| `CacheEntry.FailedFetcherAlone` | src/project_fetch.rs:348-366 | After a failed clone or rename the temporary directory goes, the lock is released, and the answer is Ok exactly if the entry is there |
| `CacheEntry.EntryChangesWhole` | src/project_fetch.rs:300-366 | The entry only changes from absent to the whole checkout of the call that fills it, or from present to absent by the remover holding the lock |
| `CacheEntry.LockExcludes` | src/project_fetch.rs:256-285 | Two calls are never both working under the lock |
| `CacheEntry.SomeCallCanAct` | src/project_fetch.rs:249-286 | No wedge: while a call is under way some call can take a step, because a crash drops the lock |
| `CacheEntry.ExactlyOneClone` | src/project_fetch.rs:320-366 | With locked fetchers only, no removal, locks that can be acquired and clones that succeed: never a second clone, exactly one once a caller that may fetch has returned, and all return Ok |
| `CachePath.EncodePiece` | src/project_fetch.rs:44-54 | The escaped spelling of a piece |
| `CachePath.SplitPoint` | src/project_fetch.rs:57-61 | The loop that steps back from 180 finds the specified cut |
| `CachePath.Cut` | src/project_fetch.rs:57-61 | The cut of a long spelling is at least 178 and at most 180 |
| `CachePath.CutKeepsEscapes` | src/project_fetch.rs:57-61 | No escape is split: what is before the cut and what is behind it are whole |
| `CachePath.EncodeCacheComponent` | src/project_fetch.rs:44-66 | The directory names appended for one piece are the components of its spelling |
| `CachePath.DepCacheRoot` | src/project_fetch.rs:89-97 | The path of a source: the components of its scheme and pieces, closed by `@` |
| `CachePath.DecodesPiece` | src/project_fetch.rs:38-54 | A piece is read back from its spelling, also after the file system folded its case |
| `CachePath.SamePathSameParts` | src/project_fetch.rs:68-97 | One sequence of names, even up to case, means one scheme and one rest |
| `CachePath.SamePathIffSameSource` | src/project_fetch.rs:68-97 | Two URLs have one sequence of names, folded or not, if and only if they are equal or one writes an empty scheme (`://x`) where the other writes none (`x`) |
| `CachePath.PathsArePrefixFree` | src/project_fetch.rs:68-97 | A sequence of names that begins another is that sequence |
| `CachePath.NamesArePlainExactly` | src/project_fetch.rs:36-66 | Every name is a plain directory name (never `.` or `..`) if and only if the split of the piece does not leave one or two dots |
| `CachePath.LongPieceCanLeaveDots` | src/project_fetch.rs:36-66 | The exception is real: 180 letters and two dots leave the name `..` |
| `CachePath.SpelledByte` | src/project_fetch.rs:45-51 | By code point: `a`-`z`, `0`-`9`, `-`, `_` and a dot that is not first stand as written, any other byte as `%` and two upper-case digits |
| `CachePath.SpelledPiece` | src/project_fetch.rs:44-54 | A piece is spelled byte by byte; an empty one is a lone `%` |
| `CachePath.NamesOfSpelling` | src/project_fetch.rs:55-65 | Up to 180 characters are one name; more are several, all but the last marked and holding 178 to 180 of them |
| `CachePath.SchemeEndsFirst` | src/project_fetch.rs:91-91 | The scheme ends at the first `://` |
| `CachePath.PiecesHoldNoSlash` | src/project_fetch.rs:93-93 | The pieces are what stands between the slashes |
| `CacheDirectory.DirectoryIsKept` | src/project_fetch.rs:36-97 | Followed on disk, the names lead to the names each piece keeps, closed by `@`: a tail of one dot cancels itself, a tail of two also the name before it, and none reaches beyond its piece |
| `CacheDirectory.SameDirectoryIff` | src/project_fetch.rs:68-97 | Two sources share a directory if and only if their pieces keep the same names; folding case adds no other |
| `CacheDirectory.PlainSourcesShareIff` | src/project_fetch.rs:68-97 | Sources none of whose pieces leaves a tail of dots share a directory, folded or not, if and only if they are equal or one writes an empty scheme where the other writes none |
| `CacheDirectory.VanishingSourcesShareIff` | src/project_fetch.rs:68-97 | Where only vanishing pieces leave dots, two sources share a directory if and only if they have the same pieces apart from those |
| `CacheDirectory.KeepsNothingIff` | src/project_fetch.rs:36-66 | A piece keeps no name if and only if its spelling is 180 characters and two dots |
| `CacheDirectory.VanishingPieceShares` | src/project_fetch.rs:89-97 | Any URL with a scheme shares its directory with the URL that names a vanishing piece below it |
| `CacheDirectory.TwoSourcesOneDirectory` | src/project_fetch.rs:68-97 | The input: `https://h/o` and the URL below it with 180 letters and two dots |
| `CacheDirectory.DirectoriesArePrefixFree` | src/project_fetch.rs:68-97 | On disk, no source's directory lies inside another's |
| `CacheDirectory.StaysInside` | src/project_fetch.rs:68-97 | On disk, no source leads out of the cache |
| `CacheDirectory.FoldedName` | src/project_fetch.rs:36-66 | Two names of sources that differ only in case are one name: upper case stands in escapes only |
| `CaseRuns.Build` | scripts/gen-case-tables.py:39-78 | The run builder's in-place edits of the last run give the specified table, and that table holds the mapping |
| `CaseRuns.TableHolds` | scripts/gen-case-tables.py:39-78 | For every mapping with one to three targets a row: each non-ASCII row is reproduced by exactly one run, the runs are sorted and apart, and they reproduce nothing else |
| `CaseRuns.RunsAreMaximal` | scripts/gen-case-tables.py:57-69 | No two neighbouring runs could have been one: neither a pair of rows one or two apart nor the next row of a longer run with room |
| `HexFields.ReadsHex` | scripts/gen-case-tables.py:76-77 | A number written in upper-case digits is read back at any width |
| `HexFields.Rd6IsSum` | scripts/gen-case-tables.py:127-130 | The six-digit read is the sum the emitted code writes out |
| `CaseLookup.FindsLast` | scripts/gen-case-tables.py:143-149 | The binary search finds the last run that starts at or below the code point |
| `CaseLookup.LookupAnswers` | scripts/gen-case-tables.py:143-163 | On the hexadecimal table the lookup answers what the runs say |
| `CaseLookup.TableAnswersMapping` | scripts/gen-case-tables.py:143-163 | The lookup returns the mapped value (or the index of the special row) for each non-ASCII key and -1 for every other non-ASCII code point |
| `CaseLookup.SpecialRead` | scripts/gen-case-tables.py:77-77 | A special row is read back from its eighteen digits |
| `RangeTable.Ranges` | scripts/gen-case-tables.py:233-241 | The range builder's in-place edits give the specified ranges |
| `RangeTable.TableDecides` | scripts/gen-case-tables.py:258-268 | Binary-searched membership in the hexadecimal range table is membership in the set it was built from |
| `Utf8.DecodesEncoded` | scripts/gen-case-tables.py:165-171 | The emitted decoder reads back the encoding of every scalar value, with its length, wherever it stands |
| `Utf8.CharsAreEncodings` | scripts/gen-case-tables.py:165-196 | The octet sequences the grammar of section 4 of RFC 3629 derives for one character are exactly the encodings of section 3 |
| `Utf8.ValidIffEncoded` | scripts/gen-case-tables.py:165-196 | A byte sequence is valid UTF-8 if and only if it is the encoding of some scalar values |
| `CaseWalk.Write` | scripts/gen-case-tables.py:173-196 | Writing a code point changes exactly the bytes of its encoding in the buffer |
| `CaseWalk.BckDecides` | scripts/gen-case-tables.py:270-284 | The backward byte scan, stepping over continuation bytes, decides whether the first non-ignorable code point before is cased |
| `CaseWalk.FwdDecides` | scripts/gen-case-tables.py:286-294 | The forward byte scan decides whether the first non-ignorable code point after is cased |
| `CaseWalk.ScansDecideFinalSigma` | scripts/gen-case-tables.py:85-96 | Around a sigma the two scans together decide the rule on the list of code points |
| `CaseWalk.Walk` | scripts/gen-case-tables.py:198-231 | From any code point on, the walk appends the encoding of the mapped code points, never writing past three times the text read |
| `CaseWalk.Convert` | scripts/gen-case-tables.py:221-230 | For every valid UTF-8 text the buffer holds the encoding of the code-point-by-code-point mapping, valid UTF-8 of at most three times the length |
| `CaseTables.Emit` | scripts/gen-case-tables.py:80-81 | The tables generated from any dump meet what the walk needs of them |
| `CaseTables.ConvertWithGeneratedTables` | scripts/gen-case-tables.py:80-231 | From the dump to the bytes: the conversion with the generated tables writes the encoding of the mapped text |
| `CaseTables.FinalSigmaAgreesIffDisjoint` | scripts/gen-case-tables.py:243-294 | The rule the scans decide is the Final_Sigma condition of section 3.13 of the Unicode Standard for every text if and only if no code point is both cased and case-ignorable |
| `CaseTables.BothCharactersDisagree` | scripts/gen-case-tables.py:243-294 | A code point that is both gives a text on which the two rules differ |
| `SelfHostScan.ByKey` | src/wasm_leg.rs:609-619 | The body a qualified name means is one of that name, and none means there is none |
| `SelfHostScan.ScanRoots` | src/wasm_leg.rs:662-674 | The bodies always scanned: the worklist and the demands they start with |
| `SelfHostScan.ScanProgram` | src/wasm_leg.rs:602-687 | Whatever order the worklist is pushed and popped in, the bodies seen are the least set closed under naming, and the demands are theirs |
| `SelfHostScan.ReachedIsUnique` | src/wasm_leg.rs:602-687 | That least set is unique, so the demands do not depend on the order |
| `SelfHostSurfaces.ReachedIff` | src/wasm_leg.rs:602-687 | A body is reached exactly if it is of a module that is neither bundled nor a self-host source, or some scanned body names it: by its qualified name, as the loaded implementation of a surface, as a value helper, or by its bare name |
| `SelfHostSurfaces.DemandsIff` | src/wasm_leg.rs:622-687 | The demands are what scanned bodies name, the helpers' anchor for a surface that needs one, and the two float printers for an error that can hold a float |
| `SelfHostSurfaces.ImpliedIff` | src/wasm_leg.rs:770-777 | What is implied follows through rows of the list taken in its order |
| `SelfHostSurfaces.NeededIsImplemented` | src/wasm_leg.rs:920-1018 | At the end every needed surface with an admitted implementation declared in a loadable source is a body of the module of that source |
| `SelfHostSurfaces.NeededIsLowered` | src/wasm_leg.rs:815-877 | And every needed function of a bundled module that can be lowered with it has its body, unless it is a requirement, pruning is on, and its module is not there |
| `SelfHostSurfaces.HelpersAreCarried` | src/wasm_leg.rs:645-661 | If the helpers' anchor is needed and its source can be loaded, every value helper declared there is a body of that source's module |
| `SelfHostSurfaces.ConventionMethodsAreCarried` | src/wasm_leg.rs:955-962 | A linked source's module carries every convention method (`Type.method`) the source declares |
| `SelfHostSurfaces.RequirementLoadsNothing` | src/wasm_leg.rs:825-833 | A bundled module that was not there at the start was loaded for a surface that is more than a requirement |
| `SelfHostSurfaces.BridgesStay` | src/wasm_leg.rs:845-855 | A bundled module whose source does not parse or holds a bridge is left as it was |
| `SelfHostSurfaces.CompilerFindsItsFunctions` | src/wasm_leg.rs:853-857 | A bundled module that was not there at the start has the functions the compiler itself calls |
| `SelfHostSurfaces.HasFnIff` | src/wasm_leg.rs:824-826 | A module's function by name is one of the functions of the first module of that name |
| `SelfHostSurfaces.MentionedIsImplemented` | src/wasm_leg.rs:689-736 | A surface that some body mentions, reached or not, is implemented if its source was met, and what it implies in any case |
| `SelfHostLink.SelfHostNameInjective` | src/wasm_leg.rs:950-950 | Numbered self-host names are different for different numbers |
| `SelfHostLink.InstallFinds` | src/wasm_leg.rs:1008-1011 | Replacing or adding a module: it is found under its name and every other name finds what it did |
| `SelfHostLink.StaysServed` | src/wasm_leg.rs:842-876 | Lowering a bundled module again keeps every body that was already served |
| `SelfHostLink.LoweredServed` | src/wasm_leg.rs:842-876 | After lowering, a function that was missing and is declared has its body |
| `SelfHostLink.LowerKeepsInv` | src/wasm_leg.rs:842-876 | Lowering a bundled module keeps the linker's invariant |
| `SelfHostLink.CollectNotes` | src/wasm_leg.rs:878-884 | After collecting, every surface any lowered body names, reached or not, is noted |
| `SelfHostSources.LinkKeepsInv` | src/wasm_leg.rs:941-1014 | Linking a source keeps the invariant: linked sources are loadable, their modules carry exactly their functions, no more than what can be asked of them reaches, and names stay apart |
| `SelfHostSources.LinkMeets` | src/wasm_leg.rs:920-1014 | After linking a source, every wanted surface with an admitted, declared body in it is linked |
| `SelfHostSources.LinkedGrows` | src/wasm_leg.rs:941-1014 | The functions a source carries only grow |
| `SelfHostSources.PairsGrow` | src/wasm_leg.rs:965-970 | A source that is lowered again strictly enlarges what is linked |
| `SelfHostSources.SourceOrderHolds` | src/wasm_leg.rs:885-905 | The sources of a round are those of its demands, of the emitter's own surfaces, and all met before |
| `SelfHostSources.LinkSources` | src/wasm_leg.rs:885-1014 | After the loop over the sources each carries the declared functions asked of it (admitted implementations of wanted surfaces, and the value helpers with their anchor) and, where reaching is a closure, nothing that these, what it carried and the convention methods do not reach; a source is met only if something is asked of it; and nothing changed unless something was added |
| `SelfHostRounds.GatherMissing` | src/wasm_leg.rs:815-841 | The missing surfaces are grouped by module, each tried once, and none that still needs lowering is left out |
| `SelfHostRounds.LoadMissing` | src/wasm_leg.rs:815-877 | Loading the missing modules keeps the invariant, serves every demand it can, tries only surfaces without a body, and grows only with a newly tried one |
| `SelfHostRounds.SameReached` | src/wasm_leg.rs:602-687 | Sources that are named but could not be loaded do not change what is reached |
| `SelfHostRounds.Round` | src/wasm_leg.rs:782-1018 | A round that grew uses up a finite measure; one that did not leaves every reached demand and every mention met |
| `SelfHostRounds.LinkSelfHost` | src/wasm_leg.rs:386-1020 | The link ends; then every surface demanded by a body reachable from the roots, with an admitted declared body in a loadable source, is linked, every bundled function demanded has its body unless no value of its type can exist, and so is every surface merely mentioned whose source was met |
| `SelfModules.SameKeyIffSamePath` | src/resolve.rs:427-461 | Two module paths have one key if and only if they are one path, or one is `self.` before a reserved other |
| `SelfModules.JoinInjective` | src/resolve.rs:427-461 | Dot-joining paths of identifiers loses nothing |
| `SelfModules.Loader.LoadNamed` | src/resolve.rs:232-266 | The loop over the modules of a package import does what the walk on values does |
| `SelfModules.Loader.LoadImport` | src/resolve.rs:396-425 | One import of a module under load does what the walk on values does; a bare `import self` only asks for the root |
| `SelfModules.Loader.LoadSelf` | src/resolve.rs:463-494 | Loading a module in place does what the walk on values does, leaves the set under load as it was, and ends on every import graph |
| `SelfModules.Loader.ResolveSelf` | src/resolve.rs:154-210 | An entry import of the root or of a module does what the walk on values does |
| `SelfModules.Loader.LoadRequestedRoot` | src/resolve.rs:367-394 | The requested root is loaded, and refused when missing, as in the walk on values |
| `SelfModules.Loader.Resolve` | src/resolve.rs:268-301 | All imports of the entry program, then the requested root: the loader's state and answer are those of the walk on values |
| `SelfLoading.SelfKeeps` | src/resolve.rs:463-494 | What every load keeps: imports stand before their importer, everything loaded is reached or a package module, the root is noted when asked for; and a failure is justified by a walk of the import graph |
| `SelfLoading.EntriesKeep` | src/resolve.rs:268-300 | The same for the imports of the entry program, each of which is served |
| `SelfEntries.EntriesAreMet` | src/resolve.rs:158-266 | After Ok every import of the entry program has its key: `import self as a` the key `a`, without an alias the package's name, else `self`; `self.<path>` its dotted path, behind `self.` when reserved; a package import all its modules |
| `SelfEntries.LoadedAreMet` | src/resolve.rs:396-425 | And so has every import of every loaded module; a bare `import self` there has some root |
| `SelfEntries.EntriesHaveTheirFiles` | src/resolve.rs:158-210 | With the keys apart, under an entry import's key stands the file it names: the root's, or the module of that path |
| `SelfEntries.ErrorsAreTrue` | src/resolve.rs:158-524 | Whatever the keys, an error is true of the project: no manifest, no root file, no file for an imported path, one that does not parse, a package import that fails |
| `SelfEntries.LoadedIsImported` | src/resolve.rs:158-494 | Everything loaded was imported by the entry program or by a module, or is the root |
| `SelfResolution.LoadsRightIff` | src/resolve.rs:158-494 | Loading succeeds and gives every import its own module if and only if no two modules that can be met share a key and the project is sound: manifest, root, files and packages exist, the files parse, and no walk of `self.x` edges comes back to a module |
| `SelfResolution.OkIsRightIffApart` | src/resolve.rs:158-494 | A successful load gives every import its own module if and only if the keys are apart |
| `SelfResolution.CircularIffCircle` | src/resolve.rs:463-494 | With the keys apart a circular import is reported only when a walk comes back to a module, loading then always fails, and if nothing is missing it is reported exactly then |
| `SelfResolution.RightHasNoCircle` | src/resolve.rs:463-494 | Where every module stands under its key, after what it imports, no walk comes back to a module |
| `SelfResolution.RightIsApart` | src/resolve.rs:427-461 | Giving every import its module needs the keys to be apart |
| `SelfResolution.ApartIsRight` | src/resolve.rs:158-494 | With the keys apart, whatever loads gives every import its module, and the root when a module asked for it |
| `SelfResolution.LoadsEachOnce` | src/resolve.rs:463-494 | No key is taken twice, if no package import met below a loading module carries that module's key |
| `SelfResolution.ApartLoadsEachOnce` | src/resolve.rs:463-494 | With the keys apart no key is taken twice and no path is loaded twice, except the root once for each key it is imported under |
| `SelfResolution.RootKeyMeetsIff` | src/resolve.rs:176-191 | The root's key, an alias or the package's name, meets the key of `self.<path>` exactly if, split at its dots, it is that path and not reserved, or that path behind a `self` when the path is reserved; so a key without a dot only meets the path of that one segment |
| `SelfFiles.SameFileIff` | src/resolve.rs:496-524 | Two paths find one file if and only if they are one path, or one is the other and `mod` and the other has no file of its own |
| `SelfFiles.FileCircleIff` | src/resolve.rs:463-494 | Some walk of imports comes back to a file if and only if some walk comes back to a path |
| `SelfFiles.FilesOnceIff` | src/resolve.rs:463-524 | With the keys apart, no file is loaded twice if and only if neither the root is met under two keys nor a module both as `x`, without a file of its own, and as `x.mod`; no file but the root is, if and only if the latter is not met |
| `SelfFiles.TwoKeysAreRoots` | src/resolve.rs:176-204 | One path has two keys only as the package root |
| `SelfCollisions.PackageNamedLikeItsModule` | src/resolve.rs:176-191 | A package `foo` whose root imports `self.foo` is refused as circular although no walk comes back to a module |
| `SelfCollisions.ModuleIsSkipped` | src/resolve.rs:176-204 | In such a package, importing `self` and then `self.foo` succeeds without loading `foo` |
| `SelfCollisions.LoadedTwice` | src/resolve.rs:232-266 | A module `a.b` that imports a dependency's submodule `a.b` leaves two modules under one key |
| `SelfCollisions.TwiceDependsOnOrder` | src/resolve.rs:232-266 | Whether it does depends on the order of the entry's same imports |
| `SelfCollisions.FileUnderTwoKeys` | src/resolve.rs:496-524 | Importing `self.a` and `self.a.mod` where only `src/a/mod.almd` exists loads that file twice, although the keys are apart |
| `EditDistance.EditDistance` | src/trust.rs:165-176 | The two-row program computes the recursive Levenshtein distance |
| `EditDistance.LevZeroIffEqual` | src/trust.rs:165-176 | The distance is zero exactly on equal strings |
| `EditDistance.LevSymmetric` | src/trust.rs:165-176 | The distance is symmetric |
| `EditDistance.LevTriangle` | src/trust.rs:165-176 | The distance obeys the triangle inequality |
| `EditDistance.ShortestChain` | src/trust.rs:165-176 | Some sequence of single insertions, deletions and substitutions is as short as the distance |
| `EditDistance.NoShorterChain` | src/trust.rs:165-176 | No such sequence is shorter |
| `EditDistance.NearName` | src/trust.rs:178-192 | The result is the first candidate of least distance, then least length, among those within two edits and a third of the length that are not the name itself; none means there is none |
| `EditDistance.NearMeans` | src/trust.rs:178-192 | A name equal up to folding is always near; a name shorter than three bytes has no other near one |
| `EditDistance.SameKeyIff` | src/trust.rs:156-163 | Two names have one key if and only if one is made from the other by changing the case of ASCII letters and adding and dropping `-`, `_` and `.` |
| `EditDistance.ByteLengthIs` | src/trust.rs:178-192 | The length compared is that of the UTF-8 text |
| `CfgTokens.Tokenize` | src/cargo_cfg.rs:62-96 | The scanner's loops produce the specified tokens or error |
| `CfgTokens.ReadsSpaced` | src/cargo_cfg.rs:62-96 | Tokens written with any blanks are read back, if two names in a row are kept apart |
| `CfgTokens.SpellsTokens` | src/cargo_cfg.rs:62-96 | Whatever is read was written as its tokens with blanks between them |
| `CfgKey.Parser.Expr` | src/cargo_cfg.rs:116-153 | The parser's loop moves past exactly one expression or reports the specified error, and always ends |
| `CfgKey.ParsesExpr` | src/cargo_cfg.rs:8-19 | Every expression the grammar derives is parsed to its end |
| `CfgKey.ParsedIsExpr` | src/cargo_cfg.rs:116-153 | Whatever is parsed is an expression the grammar derives |
| `CfgKey.SpelledIsAccepted` | src/cargo_cfg.rs:156-163 | Printing any expression with arbitrary blanks between its tokens gives text that is accepted |
| `CfgKey.ValidateCfgExpr` | src/cargo_cfg.rs:156-163 | The inside of `cfg(...)` is accepted exactly when its tokens are one expression; a refusal names the bad token, the parse error or what is left over |
| `CfgKey.ValidateTargetKey` | src/cargo_cfg.rs:21-41 | A key is accepted if and only if it is a target name or a spelling of a cfg expression of the grammar; a refusal names the first thing wrong |
| `TestPlan.FirstFit` | src/compile_driver.rs:662-664 | The batch chosen is the first one the file fits |
| `TestPlan.Record` | src/compile_driver.rs:665-671 | Recording a file's owners name by name gives the joined record |
| `TestPlan.PlanTestRun` | src/compile_driver.rs:655-676 | The loop over the files gives the specified batches and the files built alone |
| `TestPlan.JoinRecords` | src/compile_driver.rs:660-672 | A file that fits gives no name an owner set that neither a member nor the file has: the record stays the union of the members' sets and one of them |
| `TestPlan.BatchesRecord` | src/compile_driver.rs:655-676 | That holds of every batch of every plan |
| `TestPlan.SingleOwnersAgree` | src/compile_driver.rs:599-612 | A name each member owns once, as it does a module name, has one owner in the batch |
| `TestPlan.EachFileOnce` | src/compile_driver.rs:655-676 | Each file that is not built alone is in exactly one batch, once |
| `TestPlan.NoFileLost` | src/compile_driver.rs:655-676 | Batches and files built alone are together as many as the files |
| `TestPlan.AloneIffNoOwners` | src/compile_driver.rs:656-659 | The files built alone are exactly those without owners |
| `TestPlanChains.JoinIsGreatest` | src/compile_driver.rs:665-671 | The record of files that form a chain has each one's names with the greatest of their sets |
| `TestPlanChains.OnlyChainsIff` | src/compile_driver.rs:655-676 | Every plan over files of a family of owner maps has only batches whose members form a chain if and only if, in the family, whatever fits the join of a chain compares with each of its members |
| `TestPlanChains.NoForkGivesChains` | src/compile_driver.rs:655-676 | If no name has two incomparable owner sets inside a third, every batch of every plan is a chain |
| `TestPlanChains.OneNameGivesChainsIff` | src/compile_driver.rs:655-676 | For files that all own just one name, exactly then |
| `TestPlanChains.BatchesNeedNotBeChains` | src/compile_driver.rs:660-662 | The owner sets `{p}`, `{p, q}` and `{q}` share a batch that is no chain |
| `CarriesString.Lookup` | scripts/check-utf8-producers.py:261-265 | The declared type a mention means is the one of that name in the module it is qualified by, or without a qualifier in the module read; if that is not declared, the first declared one of that name; none means no declared type has it |
| `CarriesString.NoReturn` | scripts/check-utf8-producers.py:284-310 | A route through declared types need not come back to the type it starts in, so remembering the path loses nothing |
| `CarriesString.ReachesUnfolds` | scripts/check-utf8-producers.py:284-310 | Reaching a goal is showing it, or entering an unseen type that reaches it |
| `CarriesString.Survey.CarriesString` | scripts/check-utf8-producers.py:284-310 | On cyclic type graphs the walk ends, is true exactly when a String-bearing leaf is reachable without entering a type on the path, and adds exactly the unresolved names reachable so; from the top that is any chain of declared types |
| `JsonEscape.JsonEscape` | src/diagnostic_render.rs:262-289 | The loop writes the specified escape of each character |
| `JsonEscape.DecodesEscaped` | src/diagnostic_render.rs:262-289 | Decoding the escaped text as a JSON string body (section 7 of RFC 8259) gives the text back, for every Unicode string, surrogate pairs included |
| `JsonEscape.EscapedTextIsClean` | src/diagnostic_render.rs:262-289 | The escaped text holds no control or hidden character, an odd number of backslashes stands before each quote, and an even number at its end |
| `JsonEscape.EscapeBidi` | src/diagnostic_render.rs:19-38 | A line with or without hidden characters is shown as specified |
| `JsonEscape.CaretStandsUnder` | src/diagnostic_render.rs:40-46 | At the width computed for a prefix stands, in the shown line, what the next character is shown as |
| `JsonEscape.ShownMeans` | src/diagnostic_render.rs:24-38 | A hidden character is shown as `\u{`, four or more upper-case digits that spell its code point, and `}`; any other as itself |
| `JsonEscape.ShownIsVisible` | src/diagnostic_render.rs:19-38 | The shown line holds no hidden character |
| `JsonEscape.UnitIsLowerCase` | src/diagnostic_render.rs:271-281 | The escapes of the JSON text are written with four lower-case digits |
| `WasmImports.Leb` | tools/target_availability_probe.py:699-707 | The shifting loop reads the number of section 5.2.2, or runs off the end exactly when the bytes do |
| `WasmImports.ReadsLeb` | tools/target_availability_probe.py:699-707 | Any encoding of a number, padded or not, is read back wherever it stands |
| `WasmImports.EncodedMeans` | tools/target_availability_probe.py:699-707 | Every natural number has an encoding, and it means that number |
| `WasmImports.ReadsDescription` | tools/target_availability_probe.py:725-741 | Function, table, memory and global imports are skipped to their end |
| `WasmImports.PrivateImports` | tools/target_availability_probe.py:688-744 | The section loop reads what the specification reads, or fails where it does |
| `WasmImports.ReadsBinary` | tools/target_availability_probe.py:688-744 | On any encoded binary the reader returns the private modules of its import section, whatever stands before and after it |
| `WasmImports.DistinctMeans` | tools/target_availability_probe.py:742-743 | Those are exactly the module names that begin with `almide:` |
| `WasmImports.DistinctInOrder` | tools/target_availability_probe.py:742-743 | Each once, in the order of first occurrence |
| `OneEdit.WithinOneEditIff` | src/project.rs:913-929 | The test holds exactly for equal strings, one insertion, deletion or substitution, or one swap of neighbours: comparing only after the common prefix loses no case |
| `OneEdit.WithinOneEditIsDistance` | src/project.rs:913-929 | It is the edit distance being at most one, and the swaps |
| `ManifestLines.LineStarts` | src/project.rs:188-192 | The table of line starts is zero and each offset behind a newline |
| `ManifestLines.Line` | src/project.rs:194-197 | The search returns where the starts pass the offset |
| `ManifestLines.LineIsLineOf` | src/project.rs:177-198 | That is the line the count of newlines gives, at every offset, also behind the end |
| `CanErr.CodegenSeed` | tools/effect_fn_fallibility.py:165-186 | Whether a body errs by itself and what it unwraps by name |
| `CanErr.ClassifyFile` | tools/effect_fn_fallibility.py:165-210 | The passes end with the functions from which a chain of unwrapped calls, each to the last function of its name with a body, leads to one that declares or raises an error, unwraps something unnamed, reads a file, or unwraps a name the file does not define |
| `CanErr.QuietIsOut` | tools/effect_fn_fallibility.py:189-210 | A function that does not err itself and unwraps only functions of the file, with or without bodies, that cannot err is not in the set |
| `CanErr.LeastIsReachability` | tools/effect_fn_fallibility.py:189-210 | A function is in that set if and only if a chain of unwrapped calls leads from it to a seed or out of the file |
| `PassBisect.DropPass` | scripts/pass-shuffle-bisect.py:62-68 | A pass keeps the pairs sufficient, and drops none only if every single pair is needed |
| `PassBisect.PairsToDeclare` | scripts/pass-shuffle-bisect.py:57-69 | The loop ends with a sufficient part of the pairs from which no pair can be dropped; it refuses exactly when all pairs together are not enough |
| `PassBisect.KeptIsMinimal` | scripts/pass-shuffle-bisect.py:57-69 | If forcing more never hurts, no selection lacking a kept pair is enough |

## Left out

- Git subprocesses, the network, reading files and directories, environment switches and budgets'
  values: parameters and functions of a world, or atomic steps.
- The lexer, parser, type checker, lowering, `reach_within`, `source_owner`, `semver` and TOML
  parsing: their results are inputs.
- Texts of error messages and of the diagnostics, colours and layout: errors are constructors that
  carry what the text names.
- Warnings of the dependency walk (two major versions of one package) and the lock's pinned commits:
  they do not change the walk; what a pin changes is part of what a fetch yields.
- `package_dir_in`, cleaning and updating the cache, `add` and `update` commands: plumbing around the
  modelled protocol.
- SelfModules.Loader.LoadNamed: what a package or stdlib import loads in turn (`load_module`,
  `load_submodule`, the sub-namespace directory scan in `src/resolve.rs`) is one step that adds the
  modules of `Project.leaves`.
- Loading auto-imported bundled modules after `load_requested_root`, and dropping their unreached
  functions: further steps that add package modules only.
- SelfHostRounds.LinkSelfHost: demands are taken in any order, so the numbers in the
  `__selfhost_N` names, which follow the sorted order, are not determined; the
  `ALMIDE_LINK_ALL_SELF_HOST` switch (demand everything) is not modelled; recursion depth and the
  diagnostics a lowering collects are not either.
- SelfHostScan.ScanProgram: which IR nodes a body's demands come from is an input.
- DependencySelection.OrderDoesNotMatter: that a visit key determines the manifest it leads to is
  sufficient, and the law is false without it, but it is not necessary: two manifests under one key
  may differ and the difference be hidden by a greater request for the same package elsewhere, so a
  condition that is also necessary would compare the selections themselves.
- DependencyChoice.OneBuildIff: where some order fails, an order that would build another source may be
  among those; `DependencyChoice.AgreeingIsOneBuild` holds there too, its converse is stated for
  projects whose every order succeeds.
- CacheDirectory.SameDirectoryIff: a file system that changes names further (Windows drops a dot at
  the end of a name) is not modelled.
- SelfResolution.CircularIffCircle: without the keys being apart, whether a collision is reported as
  a circular import depends on the order in which modules are met; only the outcome that everything
  loads right is characterised then.
- SelfResolution.LoadsEachOnce: its condition is sufficient; no condition on the project and the set of
  the entry's imports is exact (`SelfCollisions.TwiceDependsOnOrder`).
- CacheEntry.RunsAreSafe: a fault in naming a sibling directory is not modelled; every cache entry
  has a parent directory.
- CacheEntry.SomeCallCanAct: says that a step is possible, not that the file lock is fair.
- CarriesString.Survey.CarriesString: a type expression is the list of type names the regular
  expression finds in it; reading declarations, bounds and callbacks out of text is not modelled.
- WasmImports.PrivateImports: a file that cannot be opened gives the empty list; here the bytes are
  given. A read past the end is an error value.
- CanErr.CodegenSeed: walking the AST is replaced by the list of its nodes.
- PassBisect.PairsToDeclare: computing the inverted pairs from the two orders is not modelled.
- TestPlan.PlanTestRun: reading and resolving the files in parallel, and `declared_names`, are
  replaced by each file's owners.
- EditDistance.NearName: `fold` and the owner-name variants beside it use the same distance and are
  not repeated.
- The Unicode data, the `string_class` tables, the other probes of the availability tool, duplicate
  and unknown manifest keys, and `normalize_subdir`: easier members of the same kinds.
