# Omarchy Vault in Dafny

A model of the parts of Omarchy Vault that keep state, share it between many
callers, or decide what may be written to, with proofs of what they promise.
`dafny verify dfyconfig.toml` checks the whole project.

Each file is one component. A class stands for an object or a table whose
methods change it in place; its methods are proved against functions on values,
and the lemmas beside them say what those functions mean. A protocol with
several concurrent callers is a state machine: a datatype of atomic actions, a
predicate saying when each can happen, a function giving its effect, an
invariant every action keeps, and theorems over every run. One file-system call,
one SQL statement and one mutex section are one action each. A failing call is
an action too: a database call that fails may have taken effect or not, and so
may a removal; a rename or hard link that fails has left the folder as it was.

**Phone transfer links.**
`Names` is the cleaning of a phone's file name and the numbered candidates.
`Publish` is the folder and the loop that publishes a finished temporary file
under the first free one; `SaveProtocol` interleaves any number of uploads with
other programs adding files. `LinkStore` is the table of links with its counters
and, in module `Receiving`, one phone's request; `UploadProtocol` interleaves
the counter updates of any number of uploads on one link. `DownloadProtocol` does
the same for downloads, with the map that lets a device resume what it was
counted for. `SharedFolders` and `FolderWalk` are the two views of a shared
folder: looking a path up, and listing everything; `Unfinished` is what they show
of uploads.

**File service.** `Supervisor` is the loop that keeps one SFTPGo process alive
while it is wanted, with its wake-up slot and exit channel. `FileSync` makes
SFTPGo's users and folders match Vault's accounts.

**Limiters and sessions.** `RateLimiter` is the dashboard's token bucket,
`LoginLimiter` the growing lockout after wrong passwords, with Go's wrapping
64-bit shift, `LocalSessions` the single-use codes and sessions of the local
sign-in.

**Drive safety.** `Lsblk` flattens what lsblk and findmnt report, `Disks`
classifies device trees, `Mounts` finds the file system holding a path, and
`Adopt` takes a volume into use. The guarantee about the adopted drive is about
the whole device tree of the drive that the search picks, which is the last one
listing a volume of the requested name.

**Shortcut files.** `ConfigText` adds the line that loads Vault's file to a
Hyprland config and takes it out again, `Modifiers` compares key combinations,
`Bindings` checks requested keys, `BindingFile` writes Vault's file and reads it
back, `LuaFile` does so for Hyprland's Lua config.

`Text`, `Paths`, `Utf8`, `Sets` and `Options` hold what several components use.

Where a promise does not hold on every input, the exact condition is proved,
with an input that fails:

- removing Vault's line restores a config exactly if it was normal to begin with
  (`ConfigText.RemoveUndoesInstall`, failing in
  `ConfigText.UnendedIsNotRestored`);
- after a removal the config still loads Vault's file exactly if it had a line
  that does and that Remove does not know (`ConfigText.StillLoadedExactly`, such
  a line in `ConfigText.WholePathStaysLoaded`);
- the shortcut file is read back as written exactly if the command path is
  unusable or ends in "vaultctl" and no line is too long
  (`BindingFile.ReadBackExactly`, failing in `BindingFile.OtherNameIsNotRead`),
  the Lua form exactly for such paths (`LuaFile.LuaReadBack`);
- every granted folder object maps to its own folder exactly if no object name,
  a slug with three bytes of a hash, stands for two
  (`FileSync.FoldersAreMapped`, failing in `FileSync.CollisionIsNotMapped`);
- a sync asks for 500 users and reaches its target exactly if every user Vault
  manages is among those it gets (`FileSync.SyncedExactly`, failing in
  `FileSync.LongListsFallShort`);
- a listed file can be fetched exactly if its path keeps the length and encoding
  limits (`FolderWalk.ListedIsFetchable`, failing in
  `FolderWalk.BadByteIsNotFetchable`);
- ending a user's sessions signs the user out until the next sign-in exactly if
  no code of the user can be redeemed and no redemption is under way
  (`LocalSessions.SignedOutExactly`, failing in
  `LocalSessions.CodeOutlivesEndUser`);
- a device under a system location is protected by the mount tree exactly while
  its mount is the one on top (`Disks.SourcesExactly`, failing in
  `Disks.CoveredMountIsNoSource`);
- no system drive lists a volume's name exactly if no device tree that shows the
  system has such a volume (`Disks.SystemListsExactly`); an array over two
  drives is such a volume and can be adopted from the drive without the system
  (`Adopt.ArrayIsAccepted`).

After `Build` withholds every drive because no system drive was found, a drive's
status may still say it is available; only its adoptable mark is cleared, as in
the code. `ensureDir` in the code returns refusals only, so the branch of
`Adopt` that would pass another error on for a default folder cannot be reached
and such a folder is skipped.

## Model

| member | source | states |
|---|---|---|
| Names.CleanName | internal/transfer/save.go:24-57 | the loops that strip, trim, limit and shorten a name compute the specified cleaned name |
| Names.CleanNameIsSafe | internal/transfer/save.go:19-57 | every cleaned name is a nonempty element without slash, control or bidi characters or leading dot, at most 200 bytes, and keeps a short extension |
| Names.RunesStay | internal/transfer/save.go:30-42 | a NUL, a separator and an undecodable byte become an underscore, control and bidi characters go, and every other rune stays as it is, in order |
| Names.LastPartIsCleaned | internal/transfer/save.go:24-29 | what is cleaned is the last part of the path, between separators of either kind |
| Names.TrimmedIsMiddle | internal/transfer/save.go:43-47 | trimming takes white space from both ends and leading dots and nothing else; what would be empty is called upload |
| Names.GoodNameStays | internal/transfer/save.go:19-57 | a safe name of at most 200 bytes without backslash stays as it is exactly if there is no white space around it |
| Names.CleanTwice | internal/transfer/save.go:19-57 | cleaning again changes nothing exactly if no white space is left at an end |
| Names.DottedIsCleanedTwice | internal/transfer/save.go:43-47 | behind a leading dot, white space other than a blank is only taken by the second cleaning |
| Names.ExtensionIsKept | internal/transfer/save.go:48-57 | below whatever path the raw name's own extension is kept, and all of the cleaned stem that fits with it |
| Names.CandidateIsSafe | internal/transfer/save.go:60-69 | every numbered candidate of a cleaned name is as safe, at most 207 bytes, and never a temporary name |
| Names.CandidateInjective | internal/transfer/save.go:60-69 | different numbers give different candidates |
| Names.CandidateIs | internal/transfer/save.go:60-69 | a candidate is the stem, its number in brackets, and the extension at the end |
| Names.PlainCandidateIs | internal/transfer/save.go:60-69 | without an extension the number stands at the end |
| Names.DecimalInjective | internal/transfer/save.go:60-69 | different numbers have different decimal renderings |
| Names.DecimalReads | internal/transfer/save.go:60-69 | the rendering read as a decimal number is the number, without a leading zero |
| Publish.Folder.RenameNoReplace | internal/transfer/save.go:154-179 | the atomic rename never replaces: it succeeds only if the target is free, and says exactly what changes |
| Publish.Folder.LinkNoReplace | internal/transfer/save.go:154-187 | the same for the hard link fallback, which leaves the temporary name in place |
| Publish.Folder.Publish | internal/transfer/save.go:163-194 | publishes the file under the smallest free number and touches no other name; with a supported primitive and fewer than 10000 entries it succeeds |
| Publish.SomeCandidateIsFree | internal/transfer/save.go:60-69 | pigeonhole: in a folder with fewer entries than attempts some candidate is free |
| SaveProtocol.Step | internal/transfer/save.go:101-194 | every atomic step of any upload or other program keeps the invariant and every finished file |
| SaveProtocol.RunKeeps | internal/transfer/save.go:101-194 | the same over every run |
| SaveProtocol.SavesAreComplete | internal/transfer/save.go:97-152 | in every interleaving a successful upload's name holds exactly its complete content within its limit, is one of its candidates, is no temporary name, and is returned to no other upload |
| SaveProtocol.NothingIsReplaced | internal/transfer/save.go:154-194 | what any run has left in the folder as a finished file, every continuation keeps unchanged |
| SaveProtocol.FirstFreeIsTaken | internal/transfer/save.go:163-194 | in every interleaving a successful upload has the first of its candidates that was free: all before it are in the folder |
| SaveProtocol.UploadSucceeds | internal/transfer/save.go:101-194 | from every reachable state an upload within its limit succeeds by steps of its own that do not fail, if a candidate is free |
| SaveProtocol.UnsupportedGoesOn | internal/transfer/save.go:163-194 | where the atomic rename is not supported the upload goes on with links |
| SaveProtocol.UploadCanSucceed | internal/transfer/save.go:101-194 | so does an upload begun in any reachable state |
| SaveProtocol.NothingIsLeftOver | internal/transfer/save.go:101-194 | once all uploads are through no temporary file is left, unless one could not be removed |
| LinkStore.Store.Create | internal/transfer/store.go:211-235 | a new link changes no other and is active exactly until its time is over, or never if it allows nothing |
| LinkStore.Store.Lookup | internal/transfer/store.go:258-279 | a link is usable exactly for its token and kind while not revoked, expired or used up; each refusal is the one for its reason |
| LinkStore.VerdictExactly | internal/transfer/store.go:258-279 | what each answer means in terms of revocation, the clock and the counters |
| LinkStore.Store.Reserve | internal/transfer/store.go:329-339 | one file is claimed in one step exactly if the link is not revoked and has files and bytes left; a failing call claims at most that |
| LinkStore.Store.Release | internal/transfer/store.go:342-344 | a claim is given back, never below zero |
| LinkStore.Store.Record | internal/transfer/store.go:347-361 | the byte counter and the activity log change together or not at all, also when the call fails |
| LinkStore.Store.Remaining | internal/transfer/store.go:364-374 | what it gives is positive exactly while the link has bytes left, and is then exactly what fills the link up |
| LinkStore.Store.Revoke | internal/transfer/store.go:311-322 | without an error the link is there and never active again |
| LinkStore.Store.Prune | internal/transfer/store.go:416-425 | drops exactly the links that ended a week ago, none of them usable, and keeps exactly the log entries within retention, in order |
| LinkStore.SinceExactly | internal/transfer/store.go:416-425 | every log entry is kept or not on its own, by its time |
| LinkStore.ReleaseUndoesReserve | internal/transfer/store.go:327-344 | releasing a claim restores the row, and claiming again what was released does |
| Receiving.SaveOne | internal/transfer/server.go:436-475 | a part is saved only if link and drive have room; whatever database call fails, a saved part is accounted a file, with its bytes and log entry together or not at all, and an unsaved one leaves at most its claim; with a reliable database it is charged exactly if accepted, and otherwise no trace is left |
| Receiving.Receive | internal/transfer/server.go:363-423 | one phone's parts are taken in order until one is refused, with the free space read anew for each; whatever fails, the link never exceeds its limits and counts every saved part; with a reliable database it is charged for exactly the parts reported saved |
| UploadProtocol.FilesAreCovered | internal/transfer/server.go:436-475 | in every interleaving saved files plus claims never exceed the link's files counter, which never exceeds max_files; they are equal while no counter update failed, and a release never hits its clamp |
| UploadProtocol.BytesAreBounded | internal/transfer/store.go:347-374 | with at most k uploads between reading the rest and finishing, recorded bytes plus limits handed out stay within k times max_bytes |
| UploadProtocol.DriveIsBounded | internal/transfer/server.go:436-475 | the bytes written to the drive stay within k times max_bytes while no counter update failed, and always within the files counter times max_bytes |
| UploadProtocol.RoomIsKept | internal/transfer/server.go:446-457 | in every interleaving an upload is given the smaller of what the link has left and the drive has room for, nothing if there is no room, and never writes more |
| UploadProtocol.RevokedTakesNothing | internal/transfer/store.go:311-339 | a revoked link takes no further file in any interleaving |
| UploadProtocol.BoundIsAttained | internal/transfer/server.go:436-475 | and for every k the link allows some interleaving records k times max_bytes |
| UploadProtocol.RunKeeps | internal/transfer/server.go:436-475 | both invariants hold over every run, whatever database calls fail |
| DownloadProtocol.ServedIsBounded | internal/transfer/serve_download.go:51-103 | in every interleaving the (address, item) pairs ever sent content number at most the link's files count and max_files |
| DownloadProtocol.AdmittedExactly | internal/transfer/serve_download.go:53-69 | whatever comes between lookup and counted check, a request gets past both exactly if the link was not over and had downloads left at the lookup or this pair is counted at the check |
| DownloadProtocol.ServedIsCounted | internal/transfer/serve_download.go:51-103 | in every interleaving each pair ever sent content is counted until the link's end |
| DownloadProtocol.CountedPairResumes | internal/transfer/serve_download.go:207-243 | in every interleaving a request of a served pair, looked up while the link is not over, used up or not, is never refused before the link's end except at a gate |
| DownloadProtocol.CountedRequestGoesOn | internal/transfer/serve_download.go:207-243 | once admitted as counted no interleaving stops a request, even past the link's end; only a gate does |
| DownloadProtocol.ResumingAdvances | internal/transfer/serve_download.go:51-87 | such a request is never blocked: its next step is enabled and brings it closer, and the last one sends the content |
| DownloadProtocol.ResumingIsFree | internal/transfer/serve_download.go:72-87 | none of its own steps changes the link's row or counts as another download |
| DownloadProtocol.LateLookupIsNeverServed | internal/transfer/serve_download.go:53-62 | a lookup made after revocation or expiry never leads to content, whatever happens next |
| DownloadProtocol.GuesserIsNeverServed | internal/transfer/server.go:277-286 | a request from an address locked out for wrong tokens, or for a link that is gone, is never admitted, whatever happens next |
| DownloadProtocol.RevokedUsesNothing | internal/transfer/serve_download.go:72-87 | a revoked link is never counted for another download in any interleaving |
| DownloadProtocol.HeadIsFree | internal/transfer/serve_download.go:207-243 | no step of a HEAD request uses up a download or serves content |
| DownloadProtocol.FirstDownloadIsServed | internal/transfer/serve_download.go:53-103 | while the link is not over and has downloads left a new pair can be served in any state, and uses up exactly one download |
| DownloadProtocol.OverStays | internal/transfer/store.go:258-322 | a link that is over stays over |
| DownloadProtocol.PruningIsUnobservable | internal/transfer/serve_download.go:89-103 | dropping ended entries of the counted map changes no answer, now or later |
| DownloadProtocol.KeyIsInjective | internal/transfer/serve_download.go:64-69 | the one-string keys of the counted map are different for different session, address and item |
| Counting.Counts.Count | internal/transfer/serve_download.go:72-87 | success means one download claimed and remembered until the link ends, and logged with its bytes or not at all; failure remembers and logs nothing; with a reliable database it succeeds exactly if a download is left |
| Counting.Counts.PruneGrants | internal/transfer/serve_download.go:89-103 | exactly the ended entries go |
| SharedFolders.CleanRel | internal/transfer/download.go:40-51 | a path is taken exactly if, without surrounding slashes, it is nonempty, within the length and encoding limits, and made of plain elements |
| SharedFolders.TrimExactly | internal/transfer/download.go:40-44 | trimming takes the slashes from both ends and nothing else |
| SharedFolders.CleanPathExactly | internal/transfer/download.go:40-51 | which paths are taken: not empty, at most 4096 bytes, valid UTF-8 without NUL, and no element empty or made of dots |
| Utf8.ValidExactly | internal/transfer/download.go:40-46 | the byte test for UTF-8 accepts exactly the encodings of sequences of Unicode scalar values |
| SharedFolders.JoinPath | internal/transfer/download.go:138-150 | joins a shared folder and a listed path as specified, refusing what leaves the folder |
| SharedFolders.JoinStaysInside | internal/transfer/download.go:138-150 | Join never leaves the base, and under a clean base is the base and the elements of the cleaned path |
| SharedFolders.Stat | internal/transfer/download.go:59-91 | the component loop finds what the path leads to, refusing links and unfinished uploads on the way |
| SharedFolders.StatIsFileAt | internal/transfer/download.go:59-91 | Stat gives a regular file exactly where the tree holds one on a path of visible folders |
| FolderWalk.Walk | internal/transfer/download.go:102-136 | the traversal collects exactly the listed files with their total, or stops at the cap |
| FolderWalk.ListingIsSorted | internal/transfer/download.go:102-136 | the list is strictly ascending, so free of duplicates, and its sizes add up to the total |
| FolderWalk.ListedIsFile | internal/transfer/download.go:102-136 | a clean path is listed with a size exactly when the folder holds a regular file of that size there |
| FolderWalk.WalkAgreesWithStat | internal/transfer/download.go:59-150 | under a shared folder a sub-path within the limits is listed exactly when Stat of Join(base, sub) is a regular file of that size |
| FolderWalk.ListedIsFetchable | internal/transfer/download.go:40-150 | a listed file is found by Join and Stat, with its size, exactly if its path keeps the encoding and length limits alone and below the folder's path |
| FolderWalk.BadByteIsNotFetchable | internal/transfer/download.go:40-136 | a file whose name is a byte that is no UTF-8 is listed and cannot be fetched |
| Unfinished.ListedExactly | internal/transfer/download.go:102-136 | a clean path is listed exactly if a regular file of that size is there and no element is a name Save gives temporary files |
| Unfinished.NothingUnfinishedIsListed | internal/transfer/download.go:102-136 | nothing listed has a temporary name in its path |
| Unfinished.StatExactly | internal/transfer/download.go:59-91 | Stat finds exactly the folders and regular files reached through folders only, under no temporary name |
| Unfinished.FoundExactly | internal/transfer/download.go:59-91 | the same for a regular file of a shared folder |
| Unfinished.OnlyFinishedIsShown | internal/transfer/save.go:97-152 | in every interleaving of uploads, a running one's temporary file is neither listed nor found in any tree, and a finished one's file is not hidden |
| Supervisor.NoLostWakeUp | internal/files/manager.go:94-105 | whenever the blocked supervisor's last read wish differs from the current one, the wake slot is full or a caller is about to fill it |
| Supervisor.QuietSupervisorObeys | internal/files/manager.go:247-362 | once all callers are through and the slot is empty, it idles only while unwanted and runs or retries only while wanted |
| Supervisor.WantedServiceStarts | internal/files/manager.go:247-345 | in every interleaving where nothing fails and the wish stays, a wanted service runs after at most seven steps of the loop, and goes on |
| Supervisor.RisingIsEnabled | internal/files/manager.go:247-345 | until then the next step of the loop is possible, after a wake-up if it idles |
| Supervisor.WishCanBeObeyed | internal/files/manager.go:247-385 | from every reachable state, without a new wish or a failure, a wanted service comes to run, an unwanted one is stopped and the loop idle, and a cancelled loop returns |
| Supervisor.OnlyCancelEnds | internal/files/manager.go:247-274 | the loop returns only when cancelled, and prepares the database before the first process, until that succeeds and never again |
| Supervisor.StartsArePaused | internal/files/manager.go:255-375 | the processes started number at most one more than the pauses and the stops for the wish |
| Supervisor.NoAnswerNoService | internal/files/manager.go:295-385 | a process that does not answer in time is told to stop and not served |
| Supervisor.AtMostOneChild | internal/files/manager.go:247-385 | of all processes ever started at most one is alive; none is, and no waiter or token is left behind, while idle, backing off, preparing, or after the loop's return |
| Supervisor.DrainCanComplete | internal/files/manager.go:326-385 | every blocking receive on the exit channel can complete: the process was told to stop, its end and its waiter's send are enabled in turn, and no other step undoes that |
| Supervisor.ChannelIsBalanced | internal/files/manager.go:280-385 | for every process the tokens in its exit channel and those received are those sent and put back, and never more than its capacity |
| Supervisor.SendsNeverBlock | internal/files/manager.go:280-385 | no send on an exit channel, by a waiter or by the put-back of waitHealthy, finds the slot full |
| Supervisor.RunKeeps | internal/files/manager.go:247-385 | the invariant behind these holds over every interleaving with callers, cancellation and the process |
| Supervisor.Manager.SetWanted | internal/files/manager.go:94-105 | a change of the wish always leaves the wake slot full, a repetition touches nothing |
| FileSync.Desired | internal/files/sync.go:64-103 | builds the specified user and folder objects for an account |
| FileSync.GuestCannotWrite | internal/files/sync.go:82-100 | no guest holds a write permission on any path, whatever was granted |
| FileSync.WriteExactly | internal/files/sync.go:86-100 | on any path whatever a limited account holds a write permission exactly if it is a family member and the last grant for that path is read-write |
| FileSync.Service.Sync | internal/files/sync.go:107-156 | unmanaged users survive any failure; without an error users and folders are exactly what the listing of up to 500 users leads to; a reliable service gives no error exactly if no account's name is taken by an unmanaged or unlisted user |
| FileSync.Service.SyncTwice | internal/files/sync.go:105-156 | two syncs in a row: with all users listed and without errors both tables are as one sync leaves them; on a reliable service the second does not fail if the first did not and its result can be listed |
| FileSync.SyncedExactly | internal/files/client.go:188-192 | a sync without errors reaches the target exactly if every user Vault manages was listed |
| FileSync.ListedWhole | internal/files/client.go:188-192 | up to 500 users the target is reached, and no error remains but a taken name |
| FileSync.LongListsFallShort | internal/files/client.go:188-192 | with more than 500 managed users and no account, some users stay |
| FileSync.Service.SyncAccount | internal/files/sync.go:121-147 | one account puts its folder objects and its user, or leaves a user Vault did not create alone |
| FileSync.Service.DeleteOthers | internal/files/sync.go:148-154 | exactly the managed users without an account go |
| FileSync.TargetIsExact | internal/files/sync.go:105-156 | in the target the managed users are exactly the accounts, each as desired, and every unmanaged user is unchanged |
| FileSync.AccountsAfterSync | internal/files/sync.go:64-156 | after a sync without errors every account has its user: active exactly if it is not disabled, with its password, home, limits and permissions, and one folder per grant that leads to its Vault folder |
| FileSync.TargetIsStable | internal/files/sync.go:107-156 | the target of the target is the target, whatever names are taken |
| FileSync.FoldersAreMapped | internal/files/sync.go:43-136 | every granted folder object maps to its own Vault folder exactly when no object name stands for two different ones |
| FileSync.CollisionIsNotMapped | internal/files/sync.go:43-136 | an account granted two folders with one object name does not have both mapped |
| FileSync.NotGrantedAt | internal/files/sync.go:134-138 | a folder object that is not granted is not touched |
| FileSync.FoldersAreStable | internal/files/sync.go:134-138 | a second sync changes no folder object, even when object names collide |
| RateLimiter.Limiter.Allow | internal/api/middleware.go:181-208 | the map updates give the specified answer and table, collecting at most once a minute |
| RateLimiter.CollectionIsUnobservable | internal/api/middleware.go:181-208 | every answer equals that of a limiter that never collects, if an idle bucket fills up in ten minutes |
| RateLimiter.WindowBound | internal/api/middleware.go:162-208 | in any window of any run a client is allowed at most burst + rate * window requests, with the rate of the limiter and the window in seconds |
| RateLimiter.RefusedExactly | internal/api/middleware.go:181-208 | a request is refused exactly if some window ending with it already holds all that burst + rate * window allows |
| RateLimiter.CollectedOnceAMinute | internal/api/middleware.go:181-190 | the table is gone through at most once a minute |
| RateLimiter.IdleAreForgotten | internal/api/middleware.go:181-196 | after every request no client is kept that was last seen over eleven minutes ago |
| LoginLimiter.LockoutIsExact | internal/auth/limiter.go:24-79 | for every failure count the wrapping shift and the clamp give exactly min(1 minute * 2^(failures-5), 15 minutes) |
| LoginLimiter.Limiter.Blocked | internal/auth/limiter.go:41-54 | the longest remaining lockout of the keys, and whether there is one |
| LoginLimiter.Limiter.Fail | internal/auth/limiter.go:57-82 | every key is charged once per mention after the collection, as specified |
| LoginLimiter.Limiter.Succeed | internal/auth/limiter.go:85-91 | forgets exactly the given keys |
| LoginLimiter.CollectionKeepsLocked | internal/auth/limiter.go:57-66 | over every run the hourly collection never removes a key that is still locked |
| LoginLimiter.LockedExactly | internal/auth/limiter.go:41-82 | in every run a key is locked exactly if it failed five times or more in a row and the last failure is less than min(1 minute * 2^(failures-5), 15 minutes) ago |
| LoginLimiter.IdleIsForgotten | internal/auth/limiter.go:57-66 | after a failure no key is kept whose last one is over an hour ago |
| LoginLimiter.GuessingIsSlow | internal/auth/limiter.go:57-82 | attempts made only while unlocked, without success and without an hour's gap, reach the k-th failure no earlier than all lockouts between the fifth and it |
| LocalSessions.CollectionIsUnobservable | internal/auth/local.go:157-168 | gc removes only entries that are refused now and ever after |
| LocalSessions.Local.NewCode | internal/auth/local.go:174-188 | a code is issued exactly while fewer than 16 live ones exist |
| LocalSessions.CodesAreLimited | internal/auth/local.go:174-188 | a code is issued exactly if fewer than 16 others can still be redeemed |
| LocalSessions.CodesMakeRoom | internal/auth/local.go:157-188 | in every interleaving half a minute later there is room for a code again |
| LocalSessions.Local.NewSession | internal/auth/local.go:214-235 | at 64 live sessions an earliest-expiring one goes, and only that |
| LocalSessions.DisplacedIsEarliest | internal/auth/local.go:214-235 | a new session displaces only one that expires no later than any of at least 64 live ones, and no other |
| LocalSessions.Local.Redeem | internal/auth/local.go:191-211 | a live code is used up and opens a session for its own identity; any other changes no session |
| LocalSessions.RedeemsExactly | internal/auth/local.go:191-211 | a code is redeemed exactly if it is there and at most half a minute old, and is gone in any case |
| LocalSessions.Local.EndSessionsFor | internal/auth/local.go:266-274 | exactly this user's sessions end |
| LocalSessions.OthersStay | internal/auth/local.go:266-274 | the sessions of every other user stay as they are, and so do codes and redemptions |
| LocalSessions.CodesAreSingleUse | internal/auth/local.go:157-274 | in every interleaving at most 16 codes and 64 sessions exist, and a code is redeemed at most once and only for its identity |
| LocalSessions.EndedSessionsStayEnded | internal/auth/local.go:157-274 | in every run after EndSessionsFor without a new sign-in of the user, a session of the user comes from a code that could be redeemed at that moment or a Redeem that was under way |
| LocalSessions.SignedOutExactly | internal/auth/local.go:191-274 | a run that brings a session of the user back without a new sign-in exists exactly if such a code or Redeem was there |
| LocalSessions.CodeOutlivesEndUser | internal/auth/local.go:191-274 | a code issued before EndSessionsFor still signs the user in after it |
| Lsblk.Mounts | internal/disks/lsblk.go:51-66 | the list built from both mount point columns is the specified one |
| Lsblk.MountListExactly | internal/disks/lsblk.go:49-66 | it holds every nonempty mount point of either column exactly once |
| Lsblk.MountListInOrder | internal/disks/lsblk.go:49-66 | the list keeps the order of the columns, the modern one first |
| Lsblk.ParseFindmnt | internal/disks/lsblk.go:128-147 | the recursive walk builds the specified table |
| Lsblk.FlattenIsLastMount | internal/disks/lsblk.go:125-147 | the table holds, for each target of the mount tree, the last mount in findmnt's order, and no other target |
| Lsblk.DeviceDropsSuffix | internal/disks/lsblk.go:125-140 | a bind or subvolume suffix is stripped from a source and nothing else |
| Disks.IsReservedTarget | internal/disks/disks.go:164-174 | the loop decides the reserved locations |
| Disks.SystemMountsAreReserved | internal/disks/disks.go:119-174 | every location of a system mount is reserved |
| Adopt.ReservedExactly | internal/disks/disks.go:149-174 | on kernel paths, reserved are the root, /home itself and whatever is at or below one of the fixed locations, by whole elements |
| Disks.ClassifyVolume | internal/disks/disks.go:348-413 | the status of a volume, and that it is offered exactly if supported, mounted, writable, nowhere reserved and not on a system drive |
| Disks.Hits.Walk | internal/disks/disks.go:263-285 | the walk over a device tree finds a sign of the system exactly if some node of it is mounted at a system location or is a device the mount table names for one |
| Disks.Collector.Collect | internal/disks/disks.go:307-346 | collects the volume of every node that has one, parents first, read-only below a read-only device |
| Disks.BuildDisk | internal/disks/disks.go:245-305 | the drive of a device tree, a system drive exactly if any node of the tree shows the system |
| Disks.StatusExactly | internal/disks/disks.go:287-305 | a drive is called a system drive, available, read-only or unmounted exactly by what its device tree holds, in this order |
| Disks.NamesAreReported | internal/disks/disks.go:245-346 | names, paths, identifiers and marks of drives and volumes are those lsblk reports |
| Disks.VolumeExactly | internal/disks/disks.go:307-330 | every device is a volume but a whole disk without a file system that is not mounted |
| Disks.FSTypeExactly | internal/disks/disks.go:307-346 | a type lsblk does not know is that of the first mount whose type the mount table knows |
| Disks.Build | internal/disks/disks.go:178-232 | the loops build the specified inventory, with every offer withdrawn if no system drive was found |
| Disks.OfferedExactly | internal/disks/disks.go:245-413 | a drive offers exactly the volumes of nodes with a supported file system, mounted, nowhere reserved, with every device above writable, in a tree free of the system |
| Disks.AdoptableIsSafe | internal/disks/disks.go:178-413 | a volume offered by the inventory is such a volume of one of the scanned trees, and some system drive is known |
| Disks.SafeIsAdoptable | internal/disks/disks.go:178-413 | once a system drive is known every such volume is offered |
| Disks.NothingWithoutSystem | internal/disks/disks.go:213-223 | with no system drive identified nothing is offered |
| Disks.DetectedExactly | internal/disks/disks.go:208-212 | a system drive is identified exactly when some scanned tree shows the system |
| Disks.SourcesExactly | internal/disks/disks.go:186-201 | the devices the mount tree protects are exactly those of the mounts on top at system locations |
| Disks.CoveredMountIsNoSource | internal/disks/lsblk.go:125-147 | a device mounted below another one at the same target is not among them |
| Disks.MountTreeProtects | internal/disks/disks.go:186-285 | a device so named, anywhere in a tree, makes the tree a system drive whatever lsblk saw |
| Disks.SystemListsExactly | internal/disks/disks.go:178-346 | a system drive lists a volume of a name exactly if a device tree that shows the system has a volume of that name anywhere in it |
| Disks.SortedIsStable | internal/disks/disks.go:225-230 | the sorted list has the same drives, system drives first and then by name, equal ones in their order |
| Disks.SystemDrivesFirst | internal/disks/disks.go:225-230 | system drives come first and then the names ascend |
| Disks.DrivesAreReal | internal/disks/disks.go:178-207 | the inventory has a drive exactly for every top-level device that is no pseudo device and not empty |
| Paths.DotDotUndoes | internal/storage/mounts.go:68-72 | cleaning a path, two dots take away the element before them, and at the root nothing |
| Paths.DotIsDropped | internal/storage/mounts.go:68-72 | cleaning a path drops empty elements and single dots |
| Mounts.Containing | internal/storage/mounts.go:68-79 | the loop finds the first longest mount point that holds the path |
| Mounts.ContainingIsDeepest | internal/storage/mounts.go:66-79 | it is the unique deepest mount point that is the path or an ancestor, and missing only if there is none |
| Mounts.ContainingBetween | internal/storage/mounts.go:66-79 | every path between that mount point and the original gives the same answer |
| Mounts.IsMountPoint | internal/storage/mounts.go:82-90 | decides whether the cleaned path is in the table |
| Mounts.UnescapeMount | internal/storage/mounts.go:37-52 | the index loop decodes exactly the octal escapes |
| Mounts.UnescapeInvertsEscape | internal/storage/mounts.go:35-64 | decoding inverts the kernel's escaping on every byte string, for every set of escaped bytes with the backslash |
| Mounts.MountInfoRoundTrip | internal/storage/mounts.go:35-52 | in particular for space, tab, newline and backslash |
| Adopt.ValidateFolder | internal/config/config.go:295-317 | a folder name is accepted exactly if it is empty or up to four plain elements without control characters or backslashes |
| Adopt.ValidFolderExactly | internal/config/config.go:295-317 | which folder names are taken: none, or up to four ordinary elements of at most 255 bytes |
| Adopt.GateExactly | internal/storage/adopt.go:57-92 | what each refusal at the gate means |
| Adopt.FindVolume | internal/storage/adopt.go:65-73 | the nested search finds the last volume of the name |
| Adopt.Drive.EnsureDir | internal/storage/adopt.go:181-203 | a missing folder is made, an existing one reused, a file or link refused and left as it is |
| Adopt.MakeFolder | internal/storage/adopt.go:108-122 | the folder is made one element at a time, and exactly if only folders are in the way |
| Adopt.MakeDefaults | internal/storage/adopt.go:144-166 | every default folder ends in exactly one of the three lists, which say truly what was made, there, or blocked |
| Adopt.Adopt | internal/storage/adopt.go:57-177 | each refusal at the gate has its own cause and leaves the drive alone; success means scan, mount table and folder agree; nothing on the drive is ever replaced, only asked folders are new; without faults exactly the eligible requests succeed |
| Adopt.DataDirElements | internal/storage/adopt.go:94-97 | the data folder is the mount point followed by the folder's elements |
| Adopt.AdoptIsSafe | internal/storage/adopt.go:57-177 | from Build to Adopt: no node in the adopted drive's tree is mounted at a system location or named for one, every device above the volume is writable, no mount point of it is reserved, a system drive is known, and the data folder is on the volume's own file system |
| Adopt.SharedIsAccepted | internal/storage/adopt.go:57-100 | a volume that both a system drive and a plain one list is accepted from the plain one, which is the last |
| Adopt.ArrayIsAccepted | internal/storage/adopt.go:57-100 | so is an array over the system drive and another, mounted at "/mnt" |
| Adopt.NothingWithoutSystemDrive | internal/storage/adopt.go:57-60 | if no scanned tree shows the system every request is refused |
| ConfigText.CollapseBlank | internal/shortcuts/install.go:188-190 | the replacing loop ends, leaves no three newlines in a row, and only drops newlines that follow two others |
| ConfigText.HasLoadLine | internal/shortcuts/install.go:85-93 | the scan finds whether a line loads Vault's file |
| ConfigText.Clean | internal/shortcuts/lua.go:135-156 | the line filter, the collapsing and the trimming compute the text without Vault's lines |
| ConfigText.RemoveUndoesInstall | internal/shortcuts/install.go:122-196 | for every config, Remove after Install gives it back byte for byte exactly if it ends in one newline, has no three in a row and no Vault line |
| ConfigText.UnendedIsNotRestored | internal/shortcuts/install.go:122-196 | a config without a last newline does not come back as it was |
| ConfigText.RemoveKeepsLines | internal/shortcuts/install.go:179-196 | on any config the other nonempty lines are kept in order, byte for byte |
| ConfigText.RemoveIsNormal | internal/shortcuts/install.go:179-196 | what Remove leaves ends in one newline, has no three in a row and no Vault line |
| ConfigText.InstallLoads | internal/shortcuts/install.go:138-148 | after Install the config loads the file and all that was in it stands at its start |
| ConfigText.LoadsExactly | internal/shortcuts/install.go:85-93 | a line loads the file exactly if it is a source line whose path ends in the file's name |
| ConfigText.OnlyOursGo | internal/shortcuts/install.go:179-196 | Remove takes out no line but the two it adds, with white space around them |
| ConfigText.CommentIsStripped | internal/shortcuts/conffile.go:189-196 | a single hash sign ends the line |
| ConfigText.DoubleHashIsOne | internal/shortcuts/conffile.go:189-196 | a double hash sign stands for one |
| ConfigText.CommentLoadsNothing | internal/shortcuts/install.go:85-93 | a commented line loads nothing |
| ConfigText.RemoveTwice | internal/shortcuts/install.go:179-196 | removing again changes nothing |
| ConfigText.StillLoadedExactly | internal/shortcuts/install.go:85-196 | after Remove the config still loads Vault's file exactly if it had a line that loads it and is not one Remove takes out |
| ConfigText.WholePathStaysLoaded | internal/shortcuts/install.go:85-196 | a source line with the whole path is taken for the load line by Install and left in by Remove |
| ConfigText.InstallTwice | internal/shortcuts/install.go:138-148 | installing again adds no second line |
| ConfigText.BothFormats | internal/shortcuts/lua.go:18-35 | the lines added in both formats satisfy what these results ask of them |
| ConfigText.Home.Install | internal/shortcuts/install.go:122-149 | a file Vault did not write is never replaced, an error leaves the config as it was, and success writes exactly the file and the config |
| ConfigText.Home.Remove | internal/shortcuts/install.go:152-196 | a file Vault did not write is left alone with the config; otherwise both lose exactly what Vault added |
| ConfigText.Home.InstallAndRemove | internal/shortcuts/install_test.go:11-69 | one after the other, without an error the config is back exactly if it was normal, and Vault's file is gone |
| Modifiers.ParseMods | internal/shortcuts/shortcuts.go:143-164 | the set, the ordered pass and the sorted rest give the canonical list |
| Modifiers.ParseModsAgain | internal/shortcuts/shortcuts.go:141-164 | parsing its own output changes nothing |
| Modifiers.ModsInOrder | internal/shortcuts/shortcuts.go:143-164 | parsed modifiers stand in the fixed order, the unknown ones ascending behind |
| Modifiers.UpperExactly | internal/shortcuts/shortcuts.go:123-139 | small letters have their capitals and no other character has one but two that fold to ASCII |
| Modifiers.AliasExactly | internal/shortcuts/shortcuts.go:123-139 | two names are taken for one modifier exactly if they are names for the same; only the locks are ignored |
| Modifiers.SameComboExactly | internal/shortcuts/shortcuts.go:174-180 | two combinations are the same exactly if the keys are equal under case folding and the same modifiers are held, under any aliases and order |
| Modifiers.FoldedExactly | internal/shortcuts/shortcuts.go:174-180 | keys are equal exactly if, without white space around them, they are the same letter but for case in every place |
| Modifiers.SameComboIsEquivalence | internal/shortcuts/shortcuts.go:174-180 | this is an equivalence relation |
| Bindings.Build | internal/shortcuts/custom.go:54-97 | accepts exactly the requests for a known action with offered modifiers, one of them Super, Ctrl or Alt, and an offered key |
| Bindings.BuildExactly | internal/shortcuts/custom.go:54-97 | which requests are built, and that the command is the action's |
| Bindings.Suggest | internal/shortcuts/shortcuts.go:320-341 | the first alternative that no binding has, if there is one |
| Bindings.StatusExactly | internal/shortcuts/custom.go:114-156 | what each verdict means; a conflict counts before a repetition |
| Bindings.CheckAll | internal/shortcuts/custom.go:114-156 | every request has its exact verdict: invalid, in conflict, a repetition of an earlier built one, or available; conflicts are reported without omission and a suggestion is free |
| Bindings.VaultExactly | internal/shortcuts/custom.go:99-103 | a binding that runs vaultctl at whatever path is Vault's; one that mentions it nowhere and stands in neither of Vault's files is not |
| Bindings.AllAvailableExactly | internal/shortcuts/custom.go:112-156 | all are available exactly if each is offered, none is used by a binding that is not Vault's, and all are pairwise different |
| BindingFile.Render | internal/shortcuts/install.go:52-59 | writes the header and one line per shortcut |
| BindingFile.WithCommandPath | internal/shortcuts/custom.go:198-210 | points each vaultctl command at a usable path and changes nothing else |
| BindingFile.AtPathExactly | internal/shortcuts/custom.go:198-210 | a plain vaultctl command runs the program at the path, any other stays |
| BindingFile.Scan | internal/shortcuts/custom.go:163-193 | the line scan, which ends at a line too long for the scanner, reads the specified shortcuts |
| BindingFile.SuffixExactly | internal/shortcuts/custom.go:184-190 | a command is recognised exactly by its last word and a program name ending in "vaultctl" |
| BindingFile.ReadBack | internal/shortcuts/custom.go:159-210 | a rendered file is read back as the same shortcuts up to a line that is too long if the path is not used or ends in "vaultctl"; otherwise as none |
| BindingFile.ReadBackExactly | internal/shortcuts/custom.go:159-210 | so it is read back as written exactly if it is empty, or the path is such a one and no line is too long |
| BindingFile.OtherNameIsNotRead | internal/shortcuts/custom.go:159-210 | the open shortcut written for "/bin/vault" is not found in the file |
| BindingFile.BuiltIsFit | internal/shortcuts/custom.go:54-97 | a built shortcut keeps its action's command and description, holds exactly the requested modifiers, and can be written to the file |
| BindingFile.BuildRenderInstalled | internal/shortcuts/custom.go:54-210 | requests built, rendered and read back give the same actions in order, with the same keys and equivalent modifiers, all of them exactly if no line is too long |
| BindingFile.HeaderIsNoShortcut | internal/shortcuts/install.go:15-17 | the header of Vault's file is not read as a shortcut |
| BindingFile.ModsApart | internal/shortcuts/shortcuts.go:143-150 | modifiers may stand apart by a blank, an underscore, a plus or a tab |
| BindingFile.LuaKeysReadBack | internal/shortcuts/lua.go:37-172 | a combination written for Lua is read back with the same key and modifiers |
| LuaFile.RenderLua | internal/shortcuts/lua.go:39-69 | writes the header, the function and one guarded call per shortcut |
| LuaFile.QuotedIs | internal/shortcuts/lua.go:43-48 | the three replacements in a row escape each character on its own |
| LuaFile.InstalledLua | internal/shortcuts/lua.go:232-255 | reads the specified shortcuts from the matches of the expression, left to right |
| LuaFile.Installed | internal/shortcuts/custom.go:157-193 | the shortcuts of the Lua file, and those of the other only if there are none |
| LuaFile.LineMatches | internal/shortcuts/lua.go:66-232 | a written line is matched whole, whatever its description and command hold, with the keys as written and the command escaped |
| LuaFile.HeaderIsCalm | internal/shortcuts/lua.go:54-65 | in what stands before the lines no match begins |
| LuaFile.LuaReadBack | internal/shortcuts/lua.go:39-255 | the Lua file is read back as the same shortcuts exactly if the path is not used or ends in "vaultctl"; otherwise as none |
| LuaFile.InstalledReadsBack | internal/shortcuts/custom.go:157-193 | with both files there the Lua form's shortcuts are found if it has any that can be read, and otherwise those of the older file |
| LuaFile.BuildRenderInstalledLua | internal/shortcuts/custom.go:54-210 | requests built, written in the Lua form and read back give the same actions in order, with the same keys and equivalent modifiers |

## Left out

- HTTP, multipart, zip, JSON, QR codes, pages and the user interfaces: plumbing without state of its own.
- SQLite, real files, sockets, processes and systemd: a row store, maps from names to inodes and step relations that may fail stand for them.
- Tokens, hashes, argon2, HMAC and SHA-256: identifiers are fresh values, object names and passwords are functions given to `FileSync`.
- The transfer package's own per-address limiter: it drops every bucket past 1000 clients, so no window bound holds for it.
- SMART health, the scanner's caches, display texts and error messages, `summarize`: flat case lists.
- The account store, TOTP, the listener's start and stop, the automatic switch-off.
- Supervisor.RunKeeps: the supervising loop is a transition system rather than a method, because its steps interleave with callers and the process; log forwarding, environment and the lengths of the backoff delays are not part of the state.
- RateLimiter.WindowBound: is over real numbers; the rounding of float64 is not modelled.
- LinkStore.Store.Record: counters are unbounded integers; the link limits are far below the 64-bit range.
- Names.CleanName: works on decoded code points, an undecodable byte being the replacement character, as the original's loop sees it.
- FolderWalk.WalkAgreesWithStat: the tree does not change meanwhile and every folder can be read; a file's modification time is not part of an entry.
- Adopt.Adopt: an existing file of the drive can always be inspected below real folders; free space and permissions are only failing calls.
- Unfinished.OnlyFinishedIsShown: takes a file name as the same characters on both sides; a temporary name is ASCII, so its bytes are its characters.
- ConfigText.Home.Install: an existing Vault file can always be read; permissions and the temporary file of the atomic write are not part of the state.
- Modifiers.ParseMods: a modifier named with letters outside ASCII keeps their case, but for those whose upper case is ASCII.
- Modifiers.SameComboExactly: letters outside ASCII have no case but where they fold to an ASCII letter, which is all that comparing with an offered key needs.
- BindingFile.Scan: a line's length in bytes is that of its decoded characters, so a file that is not UTF-8 may be cut elsewhere.
- LuaFile.InstalledLua: the regular expression is modelled as a scan; its parts are such that at most one match can begin at a place.
- Parsing of the user's own Hyprland and Lua files, which supplies the existing bindings.
- Library sorting is an insertion sort with the same result.
