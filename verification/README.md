# Verified model of csi-secret-age

The provider keeps one vault, a map from path strings to secrets and folders, encrypted with an
age key inside a single Kubernetes Secret. Many pods read it for mounts and change it through
an admin UI, all at the same time. This project models that behaviour in Dafny and proves:

* **The optimistic-locking protocol** (`Protocol.dfy`, `Runs.dfy`, `Limits.dfy`). Every request is
  a call that advances by atomic steps; a run is any sequence of steps (`Label`s) of any number
  of calls of any number of pods. A step carries everything that is not under the pod's control:
  which call moves, API and encryption failures, and the version the API server hands out. The
  theorems quantify over all label sequences, that is, over all interleavings.
* **The pods' own code** (`VaultManagers.dfy`): `UpdateVault`, `Unlock`, `LoadAndDecrypt` as methods of a
  class with its lock-guarded fields and its counted retry loop, next to an API server that other
  calls use between any two of its requests. Each method is proved to be a run of the protocol,
  made of its own steps and, between them, exactly the steps its environment takes; the cluster is
  always the outcome of some run, so that every theorem about runs applies to it.
* **The tree and its paths** (`Strings.dfy`, `Paths.dfy`, `VaultTrees.dfy`, `Listing.dfy`): string-prefix
  code against the hierarchy of segments. Map iteration takes any remaining key, so whatever is
  proved holds for every iteration order.
* **Authorization, write requests and mounts** (`Permissions.dfy`, `Handlers.dfy`, `Mounts.dfy`).
* **The two caches** (`Caches.dfy`) against histories of what was fetched or put.

Conventions. Strings are sequences of code points. Fields called `begunAt`, `readAt`, `losses`, `log`,
`origin`, `history`, `clock` and `ops` are history: they record what happened and steer nothing.

Assumptions about the world outside the code:

* Create succeeds iff the Secret is absent, Update iff the submitted version is the current one,
  every accepted write installs a version this Secret never had, and nobody deletes it (the
  ClusterRole grants get, update and create only, `deploy.yaml:84-91`).
* A request that fails with any error other than AlreadyExists or Conflict had no effect.
* Decryption succeeds exactly with the key used for encryption; encoding the tree loses nothing.
* An existing Secret has a non-nil `Data` map: `vault.go:362` writes into it without a check.
* The clock that the caches read does not run backwards.

Findings:

* The README says that the others "automatically retry ... up to 5 times". The code makes five
  attempts in all, so four retries; the model follows the code. Five rivals suffice to make a
  call give up, fewer never do (`Runs.GivingUpTakesFiveRivals`, `Runs.FewRivalsCommit`,
  `Limits.SixthCanStarve`).
* The error after the retry loop (`vault.go:376`) is never returned (`Runs.ExhaustedUnreachable`).
* Pods that unlock before the vault exists may load different keys (`Limits.SplitBrain`); the first
  commit decides which of them can use the vault (`Runs.FirstCommitFixesKey`).
* A permission checked on the cleaned path covers the key that is literally deleted if the key is
  canonical, and among raw keys exactly for those whose cleaned form ends in "/*" and whose segments
  are the first parts of what is written (`Handlers.RawKeysEscapeGrants`): whoever is granted "/a/*/*"
  may delete "/a//*", which no pattern of theirs covers, while "/a/*/" is safe (`Handlers.RawStarKeys`).
* Folder lists can come out in different orders exactly when two listed folders share a name,
  which canonical keys exclude (`Listing.ListingDeterministicIff`). A tree with the keys "/a/./x" and
  "/a/a/y", listed at "/a", is an example (`Listing.FolderOrderCanVary`).

## Model

| member | source | states |
|---|---|---|
| Runs.NoLostUpdates | vault.go:297-377 | in every interleaving the stored tree is the replay, in commit order, of exactly the committed modifiers over the initial tree, and each modifier succeeded on the tree it replaced |
| Runs.ReturnTellsCommit | vault.go:331-373 | a call that returned nil committed exactly once and with its own modifier; a call that returned an error, or is still under way, committed never |
| Runs.RealTimeOrder | vault.go:297-377 | a call that began after another one returned nil comes later in the commit order |
| Runs.RefusedIffOvertaken | vault.go:323-373 | a healthy write is accepted iff nothing was committed since its Get, and what overtakes it is another call |
| Runs.FaultsEndCall | vault.go:309-374 | a failed request or encryption ends the call with an error and leaves the vault alone |
| Runs.LossesHaveRivals | vault.go:307-376 | in every run each refused attempt of every call has a commit of another call between its Get and its refusal, attempts do not overlap, and the matched calls are pairwise different and returned nil |
| Runs.GivingUpTakesFiveRivals | vault.go:367-373 | a call that returns the conflict error was refused five times, and at least five different other calls committed after it began |
| Runs.FewRivalsCommit | vault.go:307-374 | a returned call without failures of its own whose modifier accepts every tree stored meanwhile has committed, exactly when its key reads the vault, if at most four other calls committed since it began |
| Runs.BatchOfFiveCommits | vault.go:307-374 | the same for a call of any batch of at most five, if only calls of the batch commit while it is under way |
| Runs.OwnStepsBounded | vault.go:307-374 | every step of its own brings UpdateVault closer to its return, so at most ten steps remain at any time |
| Runs.ExhaustedUnreachable | vault.go:376 | the error after the loop is never returned |
| Runs.ErrorsAreFounded | vault.go:339-352 | a decryption error means the vault was sealed with another key, a modifier error that the modifier refused the stored tree, at some moment during the call |
| Limits.SixthCanStarve | vault.go:367-373 | the bound is exact: six updates without any failure and with one key, and after five commits of the others one of them gives up with a conflict |
| Runs.KeyNeverChanges | vault.go:335-366 | once a vault is stored its key is the same in every later state and every later commit uses it |
| Runs.WrongKeyNeverCommits | vault.go:335-341 | once a vault is stored, no call with another key ever commits or returns nil, not even one that was under way before |
| Runs.VerifiedUnlockDecryptsForever | vault.go:149-170 | a pod whose Unlock was verified against a stored vault can decrypt it in every later state |
| Runs.LaterUnlocksHoldTheKey | vault.go:100-170 | an Unlock that had not looked at the vault when one was already stored can only win with the vault's key |
| Runs.FirstCommitFixesKey | vault.go:157-160 | without an initial vault, a key can read the vault iff nothing is committed yet or it is the key of the first commit |
| Limits.SplitBrain | vault.go:150-160 | two pods that unlock before the vault exists may both return nil with different keys; the second can then neither read nor update |
| Runs.UnlockIsWriteOnce | vault.go:100-145 | a pod is locked iff it has no key, unlocked iff exactly one Unlock returned nil, whose key it has for the rest of the run |
| Runs.LoadIsSnapshot | vault.go:173-223 | a successful load is the replay of a prefix of the commits that contains everything committed before the load began |
| Runs.SuccessTakesEffect | vault.go:173-377 | each update or load that succeeded takes effect at exactly one position of the commit log, not before it began, and returned what the sequential execution of the log returns there |
| Runs.Linearizable | vault.go:173-377 | updates and loads together are linearizable: if one call had returned before another began, its position in the log is not later, and strictly earlier unless both are loads |
| Runs.QuietCallsInvisible | vault.go:100-377 | an update that fails, a load and an Unlock that does not win leave no mark: without their own record the run is the run of the others |
| Runs.TreePropertyHolds | vault.go:310-374 | a property of trees that all modifiers keep holds of every tree a run ever stores |
| VaultManagers.VaultManager.UpdateVault | vault.go:297-377 | the cluster moves by exactly this call's steps and those the environment takes in between, in at most five rounds; nil means one commit of this modifier on the replay it replaced; an error means the others alone would have led to the same state; it succeeds when undisturbed, and is refused as locked iff the pod is locked |
| VaultManagers.VaultManager.Unlock | vault.go:100-146 | exactly this call's steps and those of the environment; nil iff this call won, and then the pod's key is the first native entry of the master key; without such an entry it answers "invalid"; a call that fails leaves everything, the key included, to the others; undisturbed it succeeds iff that entry reads the stored vault |
| VaultManagers.ParsedKeyExactly | vault.go:116-134 | the key of a master key is its first native entry; there is none iff it cannot be read or has plugin entries only |
| VaultManagers.VaultManager.VerifyIdentity | vault.go:149-171 | accepts exactly when the Secret is readable with the key, a missing or empty vault included |
| VaultManagers.VaultManager.LoadAndDecrypt | vault.go:173-223 | the result is the normalized replay of the commits up to one moment during the call; succeeds iff unlocked, reachable and decryptable at that moment; writes nothing: the others alone would have led to the same state |
| VaultTrees.CheckPathConflict | ui.go:387-429 | for every iteration order a conflict is reported iff there is one, and the reported conflict is real |
| VaultTrees.ConflictCheckIsExact | ui.go:387-429 | on a hierarchical tree and a canonical path the check passes iff the kind of an existing node is kept and no secret ends up above another key |
| VaultTrees.UpdateKeepsWellFormed | ui.go:722-736 | an accepted update of a well-formed tree leaves it well-formed |
| VaultTrees.WellFormedExactly | ui.go:370-429 | well-formed means valid keys of which none begins with the path of a secret and a slash |
| VaultTrees.VaultTree.NormalizeKeys | vault.go:32-44 | the loop computes the normalization for the order in which it met the keys |
| VaultTrees.VaultTree.Update | ui.go:722-736 | the closure changes the tree exactly by the insertion, or not at all when there is a conflict |
| VaultTrees.NormalizeMerges | vault.go:36-43 | for every order the keys of the result are the normalized keys and a merged key is a folder iff one of its spellings is |
| VaultTrees.NormalizeOrderIndependent | vault.go:36-43 | the result is the same for all orders iff no two spellings of a key hold different nodes of one kind |
| VaultTrees.NormalizeIdempotent | vault.go:32-44 | normalizing twice, in any orders, is normalizing once |
| Paths.ValidateVaultPath | ui.go:370-383 | accepts exactly the canonical non-root paths without control characters, and says which rule failed |
| Paths.ValidKeyByParts | ui.go:370-383 | a key is valid iff none of its parts is empty, "." or ".." and no character is a control character |
| Paths.CanonicalByParts | ui.go:380-381 | path.Clean leaves a rooted path alone iff it is the root or has no empty, "." or ".." part and no trailing slash |
| Paths.CleanIsCanonical | permissions.go:745 | cleaning gives a canonical path that denotes the same segments |
| Paths.CleanDropsPart | permissions.go:745 | empty and "." parts do not change what a path cleans to |
| Paths.CleanDotDot | permissions.go:745 | ".." cancels the segment before it, on every rooted path |
| Paths.CleanDotDotAtRoot | permissions.go:745 | there is nothing above the root |
| Paths.CleanTrailingSlash | permissions.go:745 | a trailing slash does not count |
| Paths.PrefixIsAncestor | ui.go:401-425 | on canonical paths the string-prefix test is the proper-ancestor relation on segments |
| Permissions.MatchIsSegmentwise | permissions.go:743-762 | for every pattern and every path the string code decides a purely segment-wise relation of the cleaned path |
| Permissions.DotDotIsResolved | permissions.go:739-745 | for every pattern, a path through ".." is granted iff the path it leads to is |
| Permissions.DotDotDenied | permissions.go:739-745 | the wildcard below one directory does not match a path that leaves it through ".." for another |
| Permissions.AppDoesNotReachAdmin | permissions.go:739-745 | "/app/*" does not match "/app/../admin/x" |
| Permissions.WildcardExactly | permissions.go:747 | a pattern is a wildcard iff it ends in a slash and a star; a canonical one iff its last segment is a star |
| Permissions.CanonicalWildcard | permissions.go:747-759 | the wildcard under a canonical directory grants exactly that directory and everything below it |
| Permissions.RawWildcard | permissions.go:747-759 | a wildcard whose directory is not canonical grants nothing, except that one more slash makes it grant what lies strictly below |
| Permissions.UserAccessIsLiteral | permissions.go:720-734 | a user may read and write a canonical key iff they are an admin or any of their patterns grants the place it literally names |
| Permissions.CanonicalExact | permissions.go:761 | a canonical pattern without wildcard grants exactly its own place |
| Permissions.NonCanonicalExactGrantsNothing | permissions.go:761 | a pattern that is neither canonical nor a wildcard grants nothing |
| Permissions.MatchIgnoresCleaning | permissions.go:745 | cleaning the path first does not change the answer |
| Permissions.WildcardClosedBelow | permissions.go:747-759 | whatever a wildcard grants it also grants below |
| Permissions.PodKeyInjective | permissions.go:772 | for slash-free names the key of a pod determines the pair and is never a namespace key |
| Permissions.PodRuleIsSeparate | permissions.go:764-792 | changing or removing the rule of one pod decides that pod alone and shadows its namespace rule |
| Permissions.NamespaceRuleScope | permissions.go:782-789 | a namespace rule reaches exactly the pods of that namespace without a rule of their own |
| Permissions.UnlistedPodDenied | permissions.go:764-792 | without a rule for the pod and for its namespace nothing is granted |
| Permissions.EscapesExactly | permissions.go:743-762 | for every rooted key: each pattern that matches its cleaned form grants its literal place, iff it is canonical or cleans to a star path whose segments begin the key as written |
| Permissions.AccessIsLiteral | permissions.go:764-792 | a pod may read a canonical key iff a pattern of its own rule, or else of its namespace's, grants the place the key literally names |
| Handlers.Admit | ui.go:704-720 | a request passes the checks iff its path is a valid key and its value present (update), and the user may write there; the refusal names the first check that fails |
| Handlers.AdmittedExactly | ui.go:704-720 | on canonical keys: an update needs a valid key and, for a secret, a value; the user must be an admin or granted the place the key names |
| Handlers.TargetIsPosted | ui.go:704 | an update is about exactly the key that was posted, without the blanks around it and with a slash in front; a delete about its text as it is |
| Handlers.RefusalsInOrder | ui.go:704-720 | the path is checked before the value and both before the permission: what is refused for one of them would have passed what comes before |
| Strings.TrimBlank | ui.go:704 | trimming drops the blanks at both ends and nothing else |
| Handlers.Serve | ui.go:691-772 | refused as locked iff the pod is locked; refused before the vault is touched iff it is not admitted, and then nothing changes; otherwise one UpdateVault call, which succeeds when undisturbed; on success one commit gave the posted key the posted value, or removed it, and changed no other key; a failure leaves no mark |
| Handlers.ServedUpdate | ui.go:722-761 | next to an environment of admitted requests, an admitted request makes a run of admitted requests |
| Handlers.HistoryGoesOn | ui.go:691-772 | a served history followed by a served request is a served history, so every theorem about such runs carries on |
| Handlers.CompatibleRequestsCommit | ui.go:722-761 | a request that the stored tree accepted when it began commits, exactly when its key reads the vault, if only requests of a batch of at most five commit meanwhile and their nodes do not conflict with its own |
| Handlers.TreesStayWellFormed | ui.go:722-736 | from a well-formed vault every tree stored in any interleaving of requests is well-formed |
| Handlers.SecretsKeepValues | ui.go:712-715 | from a vault without empty secrets no run of requests ever stores one |
| Handlers.RequestStaysInGrant | ui.go:756-771 | on canonical keys a non-admin request changes at most its own key, whose literal place the user's patterns grant |
| Handlers.CommitsStayInGrant | ui.go:717-771 | the same for every commit of every run |
| Handlers.RawKeysEscapeGrants | ui.go:756-769 | for every rooted key: whoever may delete it is granted the place it literally names, iff the key is canonical or cleans to a star path whose segments begin the key as written |
| Handlers.RawStarKeys | ui.go:756-769 | a concrete raw key that escapes, and one that does not although it is not canonical |
| Handlers.SnapshotsAreStored | vault.go:216 | in runs of handler requests, normalization on load changes nothing: what is read is what was stored |
| Handlers.CommitDoesIntent | ui.go:722-761 | a commit of a run of handler requests gives its own key exactly what was posted, or removes it, and leaves every other key as it was |
| Handlers.AcknowledgedWritesAreRead | vault.go:297-377 | what a call that returned nil asked for is in every snapshot read after its return, until a later commit is about the same key |
| Listing.BuildTreeState | ui.go:502-564 | for every iteration order the lists hold exactly the visible children, sorted, and the folder itself is shown iff it is a readable folder node |
| Listing.ListedExactly | ui.go:514-541 | for any keys, raw ones included: an entry is a readable secret one name below the folder, every other readable key below lists the folder of its first name |
| Listing.EntryIsReadableSecret | ui.go:528-534 | an entry is listed iff it is a readable secret stored one segment below the folder |
| Listing.ReadableExactly | ui.go:521-523 | a canonical key is shown in dev mode, to admins and to users with a pattern that grants the place it names |
| Listing.FolderIffWitness | ui.go:535-541 | a folder is listed iff some readable key lies at it (being a folder) or beneath it |
| Listing.FolderHasReadableKey | ui.go:535-548 | a listed folder is one segment deeper, named by that segment, and has a readable key at or beneath it |
| Listing.ReadableSecretsReachable | ui.go:511-548 | each readable secret with n segments is an entry after n - 1 folder steps from the root, and every walk that shows it has that length |
| Strings.LessIsLexicographic | ui.go:557-562 | names are compared as strings: a proper prefix comes first, otherwise the first difference decides |
| Listing.ListingDeterministicIff | ui.go:543-562 | the two lists are the same for all iteration orders and unstable sorts iff no two listed folders share a name |
| Listing.ListingDeterministic | ui.go:511-562 | on canonical keys they always are, each strictly increasing by name |
| Listing.FolderOrderCanVary | ui.go:535-559 | a tree with a raw key whose two folders have the same name and two possible orders |
| Listing.NoNameTwice | ui.go:528-541 | on a well-formed tree no name is listed as folder and as entry |
| Mounts.ProviderServer.Mount | csi.go:34-121 | succeeds iff unlocked, identified, loaded and every requested item mountable from one tree, which is the normalized replay of a prefix of the commits; for a pod and items spelled out in the attributes: iff each file name is legal, each path exists and the rules let that namespace and account read it; then the files are that tree's values in request order, otherwise there is no file and the error names the first reason; in neither case does it write anything |
| Mounts.ProviderServer.MountItem | csi.go:84-109 | an item yields its file iff its name is legal, its path exists and the pod is granted; the error says which check failed first |
| Mounts.ProviderServer.MountsStayInGrant | csi.go:63-120 | in runs of handler requests every mounted file comes from the tree stored at one moment and from a place that the pod's rule grants literally |
| Mounts.GoodIdentityExactly | csi.go:45-54 | an identity is accepted iff both attributes are there and, trimmed, not empty and free of slash, backslash and NUL |
| Mounts.GoodIdentitiesDistinct | csi.go:52-54 | accepted identities have the same rule key only if they are the same, and no key is a namespace |
| Mounts.LegalNameStaysBelow | csi.go:84-87 | a legal file name names something directly below the directory it is joined to |
| Mounts.ParseItemExactly | csi.go:72-82 | the first '=' separates a file name and a path, both trimmed; an element without one is skipped |
| Mounts.RequestAppend | csi.go:70-71 | commas separate the elements of a request, and nothing else does |
| Mounts.RequestRoundTrip | csi.go:70-82 | rendering a list of items in the documented format and parsing it gives the list back, in order |
| Mounts.ParsedItemsRoundTrip | csi.go:70-82 | whatever string is parsed, its items can be written in the documented format, and writing and parsing them again changes nothing |
| KeyCaches.FastHitIsFresh | permissions.go:284-300 | a key is found under the read lock iff it is in the most recent successful fetch and that ended less than `refresh` ago |
| KeyCaches.AnswerIsLatest | permissions.go:303-329 | under the write lock a key is returned iff it is in the most recent successful fetch; that is younger than `refresh` unless this call fetched or tried to |
| KeyCaches.VisitAnswersLatest | permissions.go:308-328 | the same for one visit from any state, so a failed fetch falls back on the cached keys |
| KeyCaches.FetchesExactlyWhen | permissions.go:306-311 | a call fetches iff nothing is cached, the snapshot is `refresh` old or the kid is unknown |
| KeyCaches.FetchesAreSpaced | permissions.go:295-329 | if all requested kids are in all served key sets, no fetch starts within `refresh` of an earlier successful one |
| KeyCaches.JwksCache.GetKey | permissions.go:295-329 | with any other calls between its two looks, the method answers from one of the two moments and moves the cache accordingly; after the second look the answer is what the most recent successful fetch has |
| UserInfoCaches.GetAnswersLastPut | permissions.go:678-696 | after any gets and puts, `get` answers u iff the last put on the key stored u no more than `ttl` ago |
| UserInfoCaches.RememberedExactly | permissions.go:678-696 | that answer is u iff some put on the key, not followed by another one, stored u at a time no more than `ttl` ago |
| UserInfoCaches.EvictionInvisible | permissions.go:685-688 | gets, and the evictions they make, never change a later answer |
| UserInfoCaches.UserInfoCache.Fetch | permissions.go:678-690 | the method answers the last put on the key if it has not expired |
| UserInfoCaches.UserInfoCache.Store | permissions.go:692-696 | the method records the put, to expire after `ttl` |

## Left out

- `EncryptAndSave` (vault.go:258-292): it replaces the vault without reading it, only tests call it, and with it updates could be lost.
- A write that is accepted although its caller sees an error (a lost response): under the assumption above it cannot happen.
- Writers that are not this program, deletion of the Secret, and entries of the Secret other than "vault.enc".
- age, JSON, base64, wiping of memory and the delay between retries: encryption is symbolic and steps have no duration.
- The distinction between a nil and an empty `Nodes` map, which the code treats alike, and nil node pointers, which no handler stores.
- Invalid UTF-8: Go strings are bytes, the model's are code points.
- path.Clean, path.Join, path.Base, strings and sort functions are modelled from their documentation, and their laws are proved; the sort promises order and content only, as sort.Slice does.
- Permission files (`Load`, `Watch`) and their reload: the rules are fixed during one mount or request.
- JWT and OIDC validation, UserInfo requests and key decoding: a fetch of the key set succeeds or fails arbitrarily.
- HTTP routing, CSRF and frame headers, `withAuth`, /export, the access check of /entry, templates, breadcrumbs and parent links.
- Configuration, key providers, KMS plugins, charts and start-up; automatic unlocking at start is an ordinary Unlock call.
- VaultManagers.VaultManager.UpdateVault: the modifier is a function on trees instead of a closure that mutates one; `VaultTrees.VaultTree.Update` and `Delete` show the closures in place.
- Listing.BuildTreeState: leaves out CurrentName, ParentPath and Breadcrumbs (ui.go:449-500), which are cut from the requested path alone and would only add easy members; the entry view (ui.go:440-448) is modelled.
- Listing.ListingDeterministic: stated for canonical keys; `Listing.ListingDeterministicIff` gives the exact condition for all trees.
