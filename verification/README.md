# Verified model of iSulad-img's image storage

iSulad-img keeps container images with a patched copy of the `containers/storage` library. The
repository holds the library under `vendor/` and iSulad's rewrite of it as the series in `patch/`;
`cmd/isulad_img/image.go` drives the result. This project models the code as it stands after the
whole series is applied, and proves what the rewritten parts are for: that processes sharing a
store agree on it, that the integrity pass neither loses nor leaks layers, that names, indexes and
record files stay in step, that the change of file format survives power cuts, and that counts and
sizes are exact.

Run `dafny verify dfyconfig.toml` to check everything.

## How the model is laid out

| file | part of the system |
|---|---|
| `FileLocker.dfy`, `Coherence.dfy`, `SharedNames.dfy`, `SharedLayers.dfy` | the lock file, the protocol among processes, and the protocol applied to image names and to layers |
| `Layers.dfy`, `Chains.dfy`, `Sweep.dfy` | the forest of layers, the chain of an image, the reasoning behind the garbage sweep |
| `Protection.dfy`, `Strays.dfy`, `Integrity.dfy`, `Leaks.dfy`, `Store.dfy` | what deleting an image releases; the walk over containers without image; the integrity pass on plain tables and what it leaves; the store of layers, images and containers that runs it |
| `LayerObjects.dfy`, `MountFiles.dfy`, `DigestIndex.dfy`, `LayerStore.dfy` | layer records, mount counts in files, the digest indexes, the layer store |
| `Names.dfy`, `NameRuns.dfy`, `ImageStore.dfy`, `ImageService.dfy` | image names and their index, whole runs, the image store, Tag and UnrefImage |
| `Migration.dfy` | from one file for all layers to one file per layer |
| `Lowers.dfy` | the overlay driver's lowers files and their repair |
| `Size.dfy` | sizes written for people |
| `Lookup.dfy`, `Options.dfy`, `Slices.dfy`, `Text.dfy` | shared definitions |

Code that changes fields, maps and files is written as classes with methods; each method is proved
against a function or predicate on plain values, and the theorems are lemmas about those. What the
machine underneath answers (a driver that fails, a write that fails, power that is cut, the random
tag of the lock file, the order in which a map or a directory is walked) is a parameter or an
arbitrary choice, so every statement holds for all of them.

Where an operation is stated through a function of the model, a further lemma or clause says what
that function comes to in terms of the tables or files alone: `Protection.ReleasedIff`,
`Strays.UnnoticedGoes` and `Strays.NoticedStays`, `Migration.Loads`, `Lowers.RepairedIs`,
`SharedNames.ApplyMeans`, `SharedLayers.ApplyMeans`, `Names.CreatedMeans`, `Names.DeletedMeans`,
`LayerStore.GoneMeans`, `Size.SpelledIsRead` and `Text.TrimSpaceIsMiddle`.

## Assumptions

- Each fresh tag of the lock file has 64 characters and was never drawn before; a process does not
  die between writing its data and leaving the tag; loads succeed.
- A single file is replaced, renamed, created or removed as a whole or not at all.
- The integrity pass is stated for tables where walking up from every image ends, as the code
  itself needs to come to an end. The results about chains also need the layer a container writes
  to on no image's chain, and mapped top layers private to their image. Both are shown to be
  necessary, by `Integrity.ContainerLayerIsLost` and `Protection.SharedMappedLayerIsLost`, and
  `Integrity.DropSparesIff` has the exact condition for one image. What is said of the layers under
  a container also needs that no other container writes to one of them, and the exact condition for
  a pass that leaks nothing that no layer is built on one a container writes to.
- IDs hold no spaces, as the index of shortened IDs leaves those out. No two containers write to one
  layer and no two objects of one kind share a name, so the indexes by name and by layer are exact.
  A layer ID that an image, a container or a layer names is neither the name nor the beginning of
  the ID of another layer.
- A commit begins with links that all lead to layers, as the clean-up of the link directory leaves
  them (patch/0002-add-image-integration-check.patch:30-46), and draws names for the links it
  makes that occur nowhere yet. Nothing else is assumed of the lowers files. Where files are cut
  short, the names of links are all of one length.
- Mount and Unmount calls on one layer do not overlap.
- Record files never repeat a name inside one record, and no two records have the same ID.

## Where the code does not do what it should

Each of these is a theorem: a counterexample, or the exact condition under which the code is right.

- Outside daemon mode `layerStore.Delete` changes the layers in memory but neither writes the
  layers file nor leaves a tag, since the call to `Save` was replaced by one that removes the
  layer's own directory. `SharedLayers.DeleteKeepsIff`: such a Delete keeps the processes coherent
  exactly if it finds no layer to delete. `SharedLayers.DeletedLayerIsBack`: once another process has
  put a layer of its own, the deleted one is back for the process that deleted it, in every such run
  (`SharedLayers.DeletedLayerRun` is one).
- `SetNames` that takes a name from another image writes only its own record.
  `Names.SetNamesDiskIff`: a name is then in two records exactly if it was taken from another
  image. `NameRuns.StolenNameComesBack`, for any two images and any name: the next start gives the
  name to whichever record the directory walk finds last. Narrowing an image's names, which is all that
  UnrefImage does, is safe (`Names.SetNamesSubset`).
- Loading resolves a name conflict in memory, but writes the record of the image that won, not of
  the one that lost, so the conflict stays on disk (`ImageStore.ImageStore.Load`).
- When the record of an image that loses a name to `AddName` cannot be written, the name index is
  left naming an image that no longer lists the name (`ImageStore.ImageStore.AddName`).
- Deleting an image spares the chain of another exactly unless it releases anything and the other
  image's top layer is among its mapped top layers (`Protection.ReleasedSparesIff`).
- One sweep stops below every fork: a free layer that carries two layers stays, although both are
  taken. `Layers.AllGoIff` says when one sweep is enough, and `Layers.SweepsConverge` what repeated
  sweeps come to.
- The pass looks for a container's image with `Exists`, which also accepts the ID or name of a layer
  or a container, the name of an image, the layer that a container writes to, and the beginning of
  one ID. `Strays.OrphansGoIff`: the walk clears every container without image, in whatever order it
  goes, exactly if none of them has any of these where its image's belongs, and none has there the
  beginning of IDs of which the walk may leave one. `Strays.StrayContainerStays` and
  `Strays.NamesOthersLayerStays` are containers that stay, and `Strays.OrderDecides` is one that goes
  in one order and stays in another.
- Deleting the containers of an image that failed deletes their layers whatever is built on them.
  `Integrity.DropSparesIff`: dropping an image leaves the chain of another as it was exactly if no
  container of it writes to a layer of that chain, and the chain's top is not released as one of its
  mapped top layers.
- The order in which failed images are dropped may decide which layers are left
  (`Leaks.OrderOfDropsMatters`); it does not if nothing in the old tables sticks
  (`Leaks.SameLayersLeft`).
- Layers that were found good before their image failed stay in the cache, and so on disk, with what
  they are built on, although no image is left (`Leaks.LeakedLayersStay`). `Leaks.OnlyNeededLeftIff`
  says exactly when a pass leaves no layer but what layers in use are built on, in terms of the old
  tables and the orders of the two loops.
- UnrefImage with a name that happens to begin the image's ID removes the whole image whatever
  other names it has (`ImageService.ImageService.UnrefImage`).
- Once UnrefImage has taken a name away, the name may mean another image, whose ID it begins
  (`ImageService.ReferenceMovesOn`). `ImageService.UnreferencedMeansNothingIff` says exactly when it
  means nothing.
- Mount reports success without counting when the driver answers an empty mount point without an
  error (`MountFiles.RunDir.Mount`).
- The repair of lowers files looks for an entry that leads nowhere. It passes over a missing or empty
  file, whose one empty entry leads to the driver's home. `Lowers.LostLowersStayLost`: a file cut
  short anywhere is repaired exactly if the cut is within the name of a link. Cut behind a whole
  link it lists less than it should, and cut before the name, with "", "l" or "l/" at its end, the
  last entry leads to the driver's home or to the link directory. `Lowers.RepairStacksIff` and, for
  whole chains, `Lowers.Driver.Commit` say exactly when the repair is enough.
- A power cut while a broken layer is removed can leave its directory without a record; no later
  start removes it or its driver data (`Migration.CutRemovalStays`, with what
  `Migration.Machine.GetLayersFromJson` leaves alone).
- A layer whose record cannot be written stays in the tables without its data
  (`LayerStore.LayerStore.Put`), and an image whose directory cannot be removed is gone from memory,
  although a record file that is left brings it back at the next start
  (`ImageStore.ImageStore.Delete`).
- Of a size with several fractions only the last is read: "1.2.3" is 1.3
  (`Size.OnlyLastFractionCounts`).

## Model

| member | source | states |
|---|---|---|
| `FileLocker.Locker.Lock` | patch/0017-isulad-kit-vendor-fix-compile-error.patch:226-240 | the lock is held by this process afterwards |
| `FileLocker.Locker.Unlock` | patch/0017-isulad-kit-vendor-fix-compile-error.patch:242-256 | the lock is free afterwards |
| `FileLocker.Locker.Touch` | patch/0017-isulad-kit-vendor-fix-compile-error.patch:263-283 | the new tag is remembered and written over the beginning of the file, perhaps in part, the rest staying as it was; written whole, this process does not see the file as modified |
| `FileLocker.Locker.Modified` | patch/0017-isulad-kit-vendor-fix-compile-error.patch:285-302 | not modified is exactly a file that begins with the tag remembered; the tag it begins with is remembered from now on, and none if it is too short |
| `Coherence.LoadingKeeps` | patch/0017-isulad-kit-vendor-fix-compile-error.patch:285-302 | starting, and looking at the tag and loading, keep the invariant: same tag, same data |
| `Coherence.WritingKeeps` | patch/0019-optimize-mount-operator.patch:159-195 | writing the data and leaving the tag keep the invariant, and the write is what the operation does to the shared store |
| `Coherence.OperatingKeeps` | patch/0001-add-image-load-time-and-append-image-names.patch:357-372 | operating on the copy, past the look at the tag, keeps the invariant, and the answer is the shared store's |
| `Coherence.InvStep` | patch/0017-isulad-kit-vendor-fix-compile-error.patch:225-301 | every step of every process keeps the invariant |
| `Coherence.RunsAreSequential` | patch/0017-isulad-kit-vendor-fix-compile-error.patch:225-301 | for any number of processes and any interleaving, data and answers are those of one shared store taking the operations in turn, and a process past its look at the tag works on what is on disk |
| `Coherence.SomeRun` | patch/0017-isulad-kit-vendor-fix-compile-error.patch:225-301 | there are such runs: whatever the operation, one process does it and another that starts then has what it left |
| `Coherence.UnsavedIsUnseen` | patch/0029-Performace-optimization.patch:1279-1287 | after a change that is neither saved nor announced, whoever locks and looks at the tag next still has the data from before it |
| `SharedNames.ApplyExclusive` | patch/0001-add-image-load-time-and-append-image-names.patch:169-192 | no operation on image names gives one name to two images |
| `SharedNames.ApplyMeans` | patch/0001-add-image-load-time-and-append-image-names.patch:169-192 | what each operation answers and leaves, by ID or by name, in terms of which image lists which name |
| `SharedNames.NamesAcrossProcesses` | patch/0001-add-image-load-time-and-append-image-names.patch:169-192 | in every run of any number of processes no name is in two records on disk or in an up-to-date copy, and loading the records in any order gives the saved table |
| `SharedLayers.DeleteKeepsIff` | patch/0029-Performace-optimization.patch:1279-1287 | a Delete that is not saved keeps the processes coherent if and only if the lookup finds no layer to delete |
| `SharedLayers.ApplyMeans` | vendor/github.com/containers/storage/layers.go:525-642 | what each operation on the list of layers answers and leaves, in terms of IDs and names |
| `SharedLayers.DeletedLayerIsBack` | patch/0029-Performace-optimization.patch:1279-1287 | one process deletes a layer, another locks, looks at the tag, puts a layer and saves: in every such run the deleted layer is still on disk, and back in the first process's copy when it looks again |
| `SharedLayers.DeletedLayerRun` | patch/0029-Performace-optimization.patch:1279-1287 | there is such a run of two processes over a store with one layer |
| `Layers.RemovableIffPlain` | patch/0048-Check-all-links-in-lowers-file-but-not-parent-link-o.patch:63-109 | on an acyclic forest the removable layers are exactly those whose subtree has no blocked layer and no layer with two children |
| `Layers.AllGoIff` | patch/0048-Check-all-links-in-lowers-file-but-not-parent-link-o.patch:63-109 | one sweep takes every free layer if and only if the free layers form chains that carry nothing blocked |
| `Layers.SweepsConverge` | patch/0048-Check-all-links-in-lowers-file-but-not-parent-link-o.patch:63-109 | sweeping as often as there are layers leaves exactly the layers that blocked ones are built on |
| `Layers.OnlyNeededIff` | patch/0048-Check-all-links-in-lowers-file-but-not-parent-link-o.patch:63-109 | one sweep leaves just the layers that used ones are built on, if and only if no other layer is cached or carries two layers |
| `Sweep.AttemptSucceeds` | patch/0048-Check-all-links-in-lowers-file-but-not-parent-link-o.patch:88-107 | in the middle of the sweep an attempt succeeds exactly if the layer was removable in the beginning |
| `Sweep.WalkStep` | patch/0048-Check-all-links-in-lowers-file-but-not-parent-link-o.patch:92-107 | one turn of a walk keeps: what is gone is removable and seen, seen layers are closed under unchecked parents, each was tried once |
| `Sweep.AllAttempted` | patch/0048-Check-all-links-in-lowers-file-but-not-parent-link-o.patch:88-107 | on an acyclic forest every unchecked layer is tried |
| `Chains.BlockedChainStays` | patch/0048-Check-all-links-in-lowers-file-but-not-parent-link-o.patch:63-109 | no layer of a chain is removable while the top of the chain is in use |
| `Store.Store.DeleteUncheckedLayers` | patch/0048-Check-all-links-in-lowers-file-but-not-parent-link-o.patch:63-109 | ends even on cyclic parents; in every order of the map exactly the removable layers go; no layer is tried twice and no checked one is tried |
| `Store.Store.MarkUnchecked` | patch/0048-Check-all-links-in-lowers-file-but-not-parent-link-o.patch:63-87 | finds the unchecked layers, and which of them have an unchecked child |
| `Store.Store.DeleteUpwards` | patch/0048-Check-all-links-in-lowers-file-but-not-parent-link-o.patch:92-107 | one walk towards the root, from a layer without unchecked children, leaves the forest swept as far as seen |
| `Store.Store.DeleteLayer` | vendor/github.com/containers/storage/store.go:1915-1979 | removes exactly the layer, and only if no layer names it as parent and no image or container uses it |
| `Store.Store.GetCheckedLayers` | patch/0002-add-image-integration-check.patch:296-313 | the cache becomes the trimmed lines of its file |
| `Store.Store.AddCheckedLayer` | patch/0002-add-image-integration-check.patch:315-335 | the layer is added to the cache, and unless the file could not be written file and cache go on holding the same layers |
| `Text.LinesAppend` | patch/0002-add-image-integration-check.patch:296-335 | appending a line to the file adds exactly that ID to what reading it gives |
| `Text.TrimSpaceIsMiddle` | patch/0002-add-image-integration-check.patch:296-313 | trimming leaves the middle, from the first to the last character that is not white space |
| `Store.Store.LayersToCheck` | patch/0002-add-image-integration-check.patch:436-445 | collects the whole chain of the image, top first |
| `Store.Store.CheckImage` | patch/0002-add-image-integration-check.patch:401-463 | succeeds exactly if each layer of the chain is cached or verifies; the cache grows by the layers up to the first that fails; cached layers are not checked again |
| `Store.Store.CheckLayers` | patch/0002-add-image-integration-check.patch:447-462 | the loop succeeds exactly if every layer is cached or verifies, caches those up to the first failure, and checks no cached layer |
| `Store.Store.DeleteContainersByImage` | patch/0002-add-image-integration-check.patch:337-399 | on success exactly the image's containers and their layers are gone; whatever fails, other containers stay and only layers of this image's containers go |
| `Store.Store.DeleteImage` | vendor/github.com/containers/storage/store.go:1981-2111 | refused for an unknown or used image; otherwise exactly the image goes, with the layers it releases that the driver lets go, or with none of them if its record cannot be removed from disk; which layers these are is stated on the tables alone |
| `Store.Store.LayersToRemove` | vendor/github.com/containers/storage/store.go:2060-2099 | the walk up the chain stops at the first layer by which a container is found, the one it writes to above all, that another image names, or that carries another child |
| `Store.Store.DeleteContainer` | vendor/github.com/containers/storage/store.go:2113-2166 | the container goes only with its layer; if the layer cannot be deleted the container stays |
| `Store.Store.DropImage` | cmd/isulad_img/image.go:214-224 | whatever fails, the other images keep their chains and the containers of others stay with all that is under them; only layers of the image and its containers go; if all works the tables are those without image, containers and released layers |
| `Store.Store.CheckImages` | cmd/isulad_img/image.go:207-225 | after the loop exactly the images whose chains verify have passed, the cache holds exactly what was accepted on the way, and only images that failed lost anything |
| `Protection.ReleasedSparesIff` | vendor/github.com/containers/storage/store.go:1981-2111 | what deleting an image releases misses the chain of another image, if and only if not both something is released and that image's top layer is a mapped top layer of the deleted one |
| `Protection.ReleasedSparesContainerIff` | vendor/github.com/containers/storage/store.go:1981-2111 | it misses the layer of a container and all that is under it, if and only if not both something is released and that layer is a mapped top layer of the deleted image |
| `Protection.ReleasedIff` | vendor/github.com/containers/storage/store.go:2060-2099 | a layer is released if and only if it and all before it on the chain are nobody else's (no container's ID, name, written layer or unique beginning, no other image's top or mapped top layer) and carry nothing but the layer before, or it is a mapped top layer and that holds of the first |
| `Protection.ReleasedSparesMappedIff` | vendor/github.com/containers/storage/store.go:1981-2111 | a mapped top layer of another image and all under it are spared, if and only if not both something is released and it is also a mapped top layer of the deleted image |
| `Protection.StoppedSparesIff` | vendor/github.com/containers/storage/store.go:2060-2099 | so it is for every chain whose top stops the walk |
| `Protection.ReleasedSparesUnder` | vendor/github.com/containers/storage/store.go:1981-2111 | a chain whose top is not released, of an image or a container, loses nothing |
| `Protection.DeleteImageKeepsChains` | vendor/github.com/containers/storage/store.go:1981-2111 | deleting an image keeps the chains of all others, whichever of the released layers go |
| `Protection.SharedMappedLayerIsLost` | vendor/github.com/containers/storage/store.go:1981-2111 | tables where deleting one image releases the top layer of another |
| `Integrity.DropSparesIff` | cmd/isulad_img/image.go:214-224 | dropping a failed image with its containers leaves the chain of another image as it was, if and only if none of the containers writes to a layer of that chain and the chain's top is not released as a mapped top layer |
| `Integrity.ContainerLayerIsLost` | cmd/isulad_img/image.go:214-224 | tables where dropping an image with a missing layer takes the top layer of another |
| `Protection.StaysWalkable` | patch/0002-add-image-integration-check.patch:401-463 | whatever layers and images go, walking up from the images left still ends |
| `Store.Store.CheckContainers` | cmd/isulad_img/image.go:227-241 | only containers without image and only their layers go; when deletions work the tables are those the walk in its order comes to, looking up by ID, name, layer and beginning |
| `Store.Store.IntegrationCheck` | cmd/isulad_img/image.go:203-250 | the whole pass comes to `PassOutcome`; the sweep takes exactly the removable layers of a part of the old table; no layer is checked again after it was found good; unless the file could not be written it holds the cache, and memory does not any more |
| `Integrity.PassConcluded` | cmd/isulad_img/image.go:203-250 | an image passes if and only if its chain is cached or verifies; no image left lost a layer; containers of images that passed stay with all that is under them; the cache is exactly what was accepted and sound for the images left; before the sweep only layers of failed images and of containers of no image that passed are gone; when deletions work only images that passed are left, the tables are a function of the two orders, and every container has its image if none could be mistaken; then also a container is gone if nothing in the old tables is found where its image's ID belongs; the sweep takes no layer that an image or container left names |
| `Strays.OrphansGoIff` | cmd/isulad_img/image.go:227-241 | every order of walking over the containers clears all those without image, if and only if none of them has where its image's belongs anything that is found, now or once some of the others are gone |
| `Strays.UnnoticedGoes` | cmd/isulad_img/image.go:227-241 | a container is gone after the walk, with its layer, in every order, if nothing in the tables has the ID, name or written layer it names as its image, and no ID begins so |
| `Strays.NoticedStays` | vendor/github.com/containers/storage/store.go:1695-1740 | each of the ten ways of being found keeps the container if it is visited first |
| `Strays.NoticedByImageStays` | vendor/github.com/containers/storage/store.go:1695-1740 | what an image has keeps it in every order |
| `Strays.StrayContainerStays` | vendor/github.com/containers/storage/store.go:1695-1740 | a container without image that names a layer is left by the walk |
| `Strays.NamesOthersLayerStays` | vendor/github.com/containers/storage/containers.go:255-268 | so is one that names the layer another container writes to |
| `Strays.OrderDecides` | vendor/github.com/containers/storage/containers.go:255-268 | the beginning of two container IDs is found once one of the two is gone: a container goes in one order of the walk and stays in another |
| `Leaks.PlainGarbageGoes` | cmd/isulad_img/image.go:203-250 | a layer on which nothing cached, used or stuck is built, and no layer on it carries two, is gone after the pass, whatever fails |
| `Leaks.OnlyNeededLeftIff` | cmd/isulad_img/image.go:203-250 | when deletions work, the layers left are just those of the old table that layers in use are built on, if and only if in the tables that the two orders make of the old ones none of the others is cached or carries two layers |
| `Leaks.SameLayersLeft` | cmd/isulad_img/image.go:203-250 | when nothing in the old tables sticks, any two passes that leave the same layers in use leave the same layers |
| `Leaks.OrderOfDropsMatters` | cmd/isulad_img/image.go:205-225 | tables where the order of dropping two failed images decides whether a cached layer stays |
| `Leaks.LeakedLayersStay` | cmd/isulad_img/image.go:203-250 | tables where layers found good before their image failed stay after the pass, with what they are built on |
| `Integrity.CheckVerdict` | patch/0002-add-image-integration-check.patch:431-463 | in the middle of the pass, after any drops and with the cache grown, checking an image gives the verdict it would have had in the beginning, and accepts the same layers |
| `Integrity.SoundVerdict` | patch/0002-add-image-integration-check.patch:431-463 | with a sound cache an image passes if and only if its whole chain is there and its data match |
| `Integrity.CacheStaysSound` | patch/0002-add-image-integration-check.patch:296-335 | a cache that was sound before the pass is sound after it, for the images left |
| `Integrity.CheckingFailed` | cmd/isulad_img/image.go:211-225 | dropping an image that failed keeps what the loop promises about all images, containers and lost layers |
| `Integrity.DroppingKeeps` | cmd/isulad_img/image.go:214-224 | dropping an image with its containers, as far as that works, takes nothing from any other image's chain and nothing from under any other container |
| `Integrity.WalkKeepsSafe` | cmd/isulad_img/image.go:227-241 | deleting containers without image takes nothing from the images that passed, nor from their containers |
| `Integrity.SweepKeepsChains` | patch/0048-Check-all-links-in-lowers-file-but-not-parent-link-o.patch:63-109 | the sweep takes no layer from the chain of an image that is left |
| `Integrity.SweepKeepsSafe` | patch/0048-Check-all-links-in-lowers-file-but-not-parent-link-o.patch:63-109 | nor from under the containers of an image that passed |
| `MountFiles.RunDir.LoadLayerMountPoint` | patch/0021-set-layer-MountCount-0-without-mount-point-file.patch:15-21 | the record gets what the file says, and zero without a file |
| `MountFiles.RunDir.SaveMount` | patch/0020-Fix-file-retention-bug.patch:18-23 | the file holds a positive count, and is removed for any other |
| `MountFiles.RunDir.Mount` | patch/0019-optimize-mount-operator.patch:245-279 | one more, exactly if the layer is still mounted or the driver gives a mount point, and the file can be written; the mount point is the recorded one while it is mounted and else the driver's; it fails exactly if the count cannot be written or the driver cannot give one; other layers' files stay |
| `MountFiles.RunDir.Unmount` | patch/0019-optimize-mount-operator.patch:281-318 | one less but never below zero, zero at once if forced, nothing on failure; the driver is asked only for the last mount or when forced |
| `MountFiles.RunIsLargestSurplus` | patch/0019-optimize-mount-operator.patch:245-318 | after any run, forced unmounts included, the count is the largest surplus of mounts over unmounts among the final parts of the stretch after the last forced unmount |
| `MountFiles.FileGoneIff` | patch/0020-Fix-file-retention-bug.patch:18-23 | starting without mounts, the file is gone at the end of any run if and only if no final part of that stretch has more mounts than unmounts |
| `DigestIndex.UpdateDigestMap` | patch/0042-Delete-cached-digest-when-delete-layer.patch:32-49 | the ID moves from the list of the old digest to the end of that of the new one, and an empty list leaves the index |
| `DigestIndex.MoveDigest` | patch/0042-Delete-cached-digest-when-delete-layer.patch:54-78 | the index agrees with the layers after one of them got a new digest |
| `DigestIndex.UpdateAgrees` | patch/0042-Delete-cached-digest-when-delete-layer.patch:32-49 | moving a layer keeps: each digest carried maps to exactly its layers, once each, and no other digest is in the index |
| `DigestIndex.LoadedAgrees` | patch/0029-Performace-optimization.patch:1044-1064 | the index that loading builds agrees with the layers loaded |
| `DigestIndex.RunsAgree` | patch/0042-Delete-cached-digest-when-delete-layer.patch:19-49 | the index agrees with the layers in every state of every run of creating, unpacking, deleting and loading |
| `LayerStore.LayerStore.Put` | vendor/github.com/containers/storage/layers.go:525-642 | a new layer, under the given ID or a drawn one, enters the list, the tables and no digest index, even if its record cannot be written; used IDs and names and a failing driver leave all as it was |
| `LayerStore.LayerStore.ApplyDiff` | patch/0042-Delete-cached-digest-when-delete-layer.patch:51-80 | the layer carries the two digests found, and both indexes follow, even if the record cannot be written |
| `LayerStore.LayerStore.UnmountAll` | patch/0020-Fix-file-retention-bug.patch:24-36 | the loop ends, by the count on disk, with no mount file left, or exactly at the first unmount that failed with the rest of the count; the driver is asked once |
| `LayerStore.LayerStore.Delete` | patch/0015-split-mountpoints.json-and-layers.json-in-save.patch:88-102 | the first failure in the order unmount, data, record is answered; unless an unmount failed, the layer is gone from the list once, and from the tables, the names and both digest indexes, which go on agreeing |
| `LayerStore.GoneMeans` | patch/0042-Delete-cached-digest-when-delete-layer.patch:19-26 | then nothing of the layer is in any table, and nothing else has changed |
| `LayerStore.LayerStore.Forget` | patch/0042-Delete-cached-digest-when-delete-layer.patch:19-26 | the tables without the layer are valid again |
| `LayerStore.LayerStore.ForgetNames` | patch/0049-Delete-related-names-when-delete-layer.patch:15-24 | exactly the layer's names leave the name index |
| `LayerStore.LayerStore.ForgetDigests` | patch/0042-Delete-cached-digest-when-delete-layer.patch:19-26 | both digest indexes agree with the layers without this one |
| `LayerStore.LayerStore.DropFromList` | patch/0007-delete-try-to-delete-metadata-before-image-data.patch:42-69 | exactly the layer leaves the list, the order of the others kept |
| `Names.RenamedInverse` | vendor/github.com/containers/storage/images.go:404-423 | giving an image a list of names keeps the index the exact inverse of the lists |
| `Names.AddNameMoves` | patch/0001-add-image-load-time-and-append-image-names.patch:169-192 | AddName gives the name to its image, takes it from at most one other, and changes no other name's owner |
| `Names.TakeAllRenames` | patch/0001-add-image-load-time-and-append-image-names.patch:179-187 | the loop that takes name after name comes to the renaming as a whole |
| `Names.AddStoppedAt` | patch/0033-Save-config-to-disk-if-images-s-name-is-removed.patch:15-25 | AddName can stop only at the one new name, with everything else as it was |
| `Names.AddNameDone` | patch/0033-Save-config-to-disk-if-images-s-name-is-removed.patch:15-25 | every write of AddName, the last included, leaves each name in one record at most |
| `Names.AddWritesAre` | patch/0033-Save-config-to-disk-if-images-s-name-is-removed.patch:15-25 | the writes of AddName are the former owner's record without the name, if another image had it, and then the image's own |
| `Names.AddStuckIff` | patch/0033-Save-config-to-disk-if-images-s-name-is-removed.patch:15-25 | AddName's loop stops if and only if another image has the name and its record cannot be written |
| `Names.WrittenInStep` | patch/0029-Performace-optimization.patch:640-656 | a single write after which the record files say what memory says leaves no name in two records |
| `Names.SetNamesDiskIff` | patch/0029-Performace-optimization.patch:772-781 | writing only its own record, SetNames leaves a name in two records if and only if it takes one from another image |
| `Names.SetNamesSubset` | cmd/isulad_img/image.go:325-327 | narrowing an image's own names changes nothing else, in memory or on disk |
| `Names.LoadedInverse` | patch/0029-Performace-optimization.patch:597-632 | whatever conflicts the records hold, the loaded index is the exact inverse of the loaded names |
| `Names.LastRecordWins` | patch/0029-Performace-optimization.patch:597-607 | an image ends up with a name if and only if its record lists it and no later record does |
| `Names.NoNameLost` | patch/0029-Performace-optimization.patch:597-607 | the loaded index has exactly the names of all records |
| `Names.LoadGivesBack` | patch/0029-Performace-optimization.patch:597-632 | loading the records of tables without conflict gives the tables back, in any order |
| `Names.LoadTurn` | patch/0029-Performace-optimization.patch:600-608 | one turn of the loading loop takes the record's names from whichever images had them |
| `Names.DeletedInverse` | vendor/github.com/containers/storage/images.go:425-482 | deleting an image and its names keeps the index exact |
| `Names.CreatedMeans` | vendor/github.com/containers/storage/images.go:321-372 | creating an image adds it with all the names given, each once, in lists, index and record, and changes nothing else |
| `Names.DeletedMeans` | vendor/github.com/containers/storage/images.go:425-482 | deleting one takes it, its names and its record away, and nothing else |
| `NameRuns.RestartIsIdentity` | patch/0029-Performace-optimization.patch:597-632 | a restart between operations gives back the whole state, in whatever order the record files are read |
| `NameRuns.RunsKeepNames` | patch/0029-Performace-optimization.patch:597-791 | in every state of every run of creating, adding, narrowing and deleting, with restarts anywhere and the power cut after any of an operation's writes: the index is exact, the record files say what memory says, no write ever left a name in two records, and a restart would change nothing |
| `NameRuns.UpdateKeepsDurable` | patch/0029-Performace-optimization.patch:597-791 | every operation that comes through keeps this, and only adds writes |
| `NameRuns.StartIsDurable` | patch/0029-Performace-optimization.patch:597-632 | a start from record files in which no name is twice reads just what they say, in any order |
| `NameRuns.CutAddMovesOneName` | patch/0033-Save-config-to-disk-if-images-s-name-is-removed.patch:15-25 | the power cut anywhere in AddName: after the restart all other names are where they were, and this one is with its old owner, with nobody, or with the new one |
| `NameRuns.CutAnywhere` | patch/0029-Performace-optimization.patch:597-791 | the power may be cut after any number of an operation's writes, none and all included |
| `NameRuns.StolenNameComesBack` | patch/0029-Performace-optimization.patch:772-781 | the records of any two images after a SetNames that takes a name from one: the order of the directory decides who owns it |
| `ImageStore.ImageStore.SaveImage` | patch/0029-Performace-optimization.patch:640-656 | the record file of one image is replaced in one step, or not at all |
| `ImageStore.ImageStore.ForgetNames` | vendor/github.com/containers/storage/images.go:410-412 | exactly the image's own names leave the index |
| `ImageStore.ImageStore.TakeName` | patch/0033-Save-config-to-disk-if-images-s-name-is-removed.patch:15-25 | the former owner loses the name, its record is saved if asked for, and the index gives the name to the image; if that write fails the index is left as it was |
| `ImageStore.ImageStore.TakeNames` | patch/0033-Save-config-to-disk-if-images-s-name-is-removed.patch:15-25 | the renaming loop, up to the first record that cannot be written, if there is one |
| `ImageStore.ImageStore.SetNames` | vendor/github.com/containers/storage/images.go:404-423 | lists and index are renamed; the one write is of the image's own record; the call fails exactly if that cannot be written |
| `ImageStore.ImageStore.AddName` | patch/0001-add-image-load-time-and-append-image-names.patch:169-192 | the name goes to the image in memory and on disk; no write leaves a name in two records; it fails exactly if the former owner's record cannot be written, or the image's own, and what each failure leaves behind |
| `ImageStore.ImageStore.Create` | vendor/github.com/containers/storage/images.go:321-372 | refused for a used ID or name; otherwise the image, under the given ID or a drawn one, with its names is in lists and index, and in the record files unless the write fails; no write leaves a name in two records |
| `ImageStore.ImageStore.Delete` | vendor/github.com/containers/storage/images.go:425-482 | exactly the image, its names and its record go; if its directory cannot be removed the image is gone from memory, and its record file is there or gone; no write leaves a name in two records |
| `ImageStore.ImageStore.Load` | patch/0029-Performace-optimization.patch:558-632 | lists and index are what the records give, the index exact; the record files stay as they are |
| `ImageStore.ImageStore.TakeRecord` | patch/0029-Performace-optimization.patch:592-611 | one turn of the loading loop: the record's names are taken from whoever had them, and exactly in a conflict its own record is written again, which changes nothing |
| `ImageService.ImageService.GetReducedNames` | cmd/isulad_img/image.go:665-684 | all names but the given one and its normal form, in order |
| `ImageService.ImageService.Tag` | cmd/isulad_img/image.go:334-345 | it fails exactly if the source gives no image or AddName fails; otherwise exactly one name is added to the image meant |
| `ImageService.ImageService.DeleteImage` | cmd/isulad_img/image.go:686-692 | refused exactly while a container uses the image; otherwise the image and its names go, and its record unless it cannot be removed |
| `ImageService.ImageService.UnrefImage` | cmd/isulad_img/image.go:309-332 | it fails exactly if the reference gives no image, the image is to go and is in use, or the file system does not let the record go or be written; by ID the image goes; by name the name and its normal form no longer belong to the image, every other name keeps its owner, and the image goes if and only if it had no other name; the reference then means nothing if and only if it and its normal form begin no one ID and are no other image's, and other references mean what they meant unless one has come to begin an ID; no write leaves a name in two records |
| `ImageService.NarrowedIsUnreferenced` | cmd/isulad_img/image.go:317-329 | while other names remain, narrowing is what removing a reference means |
| `ImageService.DeletedIsUnreferenced` | cmd/isulad_img/image.go:317-331 | when none remains, deleting is |
| `ImageService.UnreferencedMeansNothingIff` | cmd/isulad_img/image.go:309-332 | a name that was taken away means nothing any more, if and only if it does not begin just one ID and its normal form is not found either; that form is nobody's name unless it is an ID |
| `ImageService.OthersGoOn` | cmd/isulad_img/image.go:309-332 | every reference to another image goes on to mean it, unless it has come to begin the ID of just one |
| `ImageService.ReferenceMovesOn` | cmd/isulad_img/image.go:309-332 | tables where a name that is taken away means another image afterwards |
| `Migration.MadeKeeps` | patch/0029-Performace-optimization.patch:894-938 | making a directory changes nothing of what is to be loaded |
| `Migration.RenamedKeeps` | patch/0029-Performace-optimization.patch:894-938 | nor does moving the tar-split file of a layer in the single file |
| `Migration.WrittenKeeps` | patch/0029-Performace-optimization.patch:894-938 | nor does writing the record file of such a layer |
| `Migration.LessKeeps` | patch/0029-Performace-optimization.patch:940-1001 | nor does taking away from a layer that is not to be loaded |
| `Migration.SingleRemovable` | patch/0029-Performace-optimization.patch:940-1001 | nor does removing the single file, once each of its layers has its own record |
| `Migration.ExpectedLoads` | patch/0029-Performace-optimization.patch:940-1001 | the layers expected are, in terms of records, names, digests, tar-split files and driver data, those that the code loads |
| `Migration.CutRemovalStays` | patch/0029-Performace-optimization.patch:972-982 | cut when only the record of a broken layer was removed, its directory and driver data stay for good |
| `Migration.Machine.MigrateRecord` | patch/0029-Performace-optimization.patch:908-936 | with the power cut anywhere the same layers are to be loaded; uncut, the layer has its directory, its record and its tar-split file there |
| `Migration.Machine.Migrate` | patch/0029-Performace-optimization.patch:894-938 | with the power cut anywhere the same layers are to be loaded; uncut, every layer of the single file is settled |
| `Migration.Machine.LoadDir` | patch/0029-Performace-optimization.patch:952-990 | gives the layer's record exactly if it is to be loaded, removes a layer whose data are broken, directory and driver data, and leaves any other as it is |
| `Migration.Machine.RemoveLayer` | patch/0029-Performace-optimization.patch:972-982 | removing a broken layer, cut anywhere, takes nothing from any other and leaves it not to be loaded |
| `Migration.Machine.Walk` | patch/0029-Performace-optimization.patch:948-993 | in any order of the directories, exactly the layers expected are loaded, the broken ones are gone, and all others are as they were |
| `Migration.Machine.GetLayersFromJson` | patch/0029-Performace-optimization.patch:940-1001 | loads, on the files alone, exactly the layers with a 64-character name and a record that have no digest, or have their tar-split file and driver data; the last record of the single file counts, else the layer's own; loaded layers have everything in place, of the others nothing is left, and what has no record stays; the single file goes only when each of its layers has its own; it comes through when its power is enough |
| `Migration.Machine.Restarts` | patch/0029-Performace-optimization.patch:894-1001 | after any number of power cuts at any points, every start that comes through loads exactly the layers that the first disk's files call for, with their data; one comes through whose power is enough for the disk as it was then |
| `Lowers.Driver.GetLower` | vendor/github.com/containers/storage/drivers/overlay/overlay.go:543-567 | the parent's link over the parent's lowers, or an error for a missing parent or link or more than 128 lowers |
| `Lowers.Driver.TryRepairLowers` | patch/0048-Check-all-links-in-lowers-file-but-not-parent-link-o.patch:22-42 | a file with an entry that leads nowhere is replaced by the parent's link over the parent's lowers; any other file stays, also one whose entries lead to the home or the link directory |
| `Lowers.RepairedIs` | patch/0048-Check-all-links-in-lowers-file-but-not-parent-link-o.patch:22-42 | on the files alone: the lowers file is changed if and only if one of its parts is not empty, not the link directory and no link that leads to a layer, and the parent's list can be had, and then to that list |
| `Lowers.OverIff` | vendor/github.com/containers/storage/drivers/overlay/overlay.go:543-567 | that list is the parent's link and all the parent lists, and can be had up to 128 entries |
| `Lowers.Driver.Create` | vendor/github.com/containers/storage/drivers/overlay/overlay.go:441-521 | succeeds exactly if the link is new, the files can be written and the parent gives lowers; the new directory has its link and those lowers, and no other directory changes; after a failure the directory is gone, though a link may be left |
| `Lowers.StacksOver` | vendor/github.com/containers/storage/drivers/overlay/overlay.go:543-567 | over a parent that stacks right a new list leads to exactly the ancestors, nearest first |
| `Lowers.SameAtTurn` | patch/0034-Try-to-repair-lowers-file-if-current-layer-is-reusin.patch:19-32 | what was done for the layers below changes nothing of what a reused layer's file means when it has its turn |
| `Lowers.RepairStacksIff` | patch/0048-Check-all-links-in-lowers-file-but-not-parent-link-o.patch:22-42 | whatever the file holds, a layer over a parent that stacks right stacks right after its repair if and only if it did before, or an entry leads nowhere and the stack is not too deep |
| `Lowers.RepairMends` | patch/0048-Check-all-links-in-lowers-file-but-not-parent-link-o.patch:22-42 | whatever the file holds, after the repair over a parent that lists nothing missing the layer lists nothing missing |
| `Lowers.LostLowersStayLost` | patch/0048-Check-all-links-in-lowers-file-but-not-parent-link-o.patch:22-42 | a file that is missing, or cut short at any character, is repaired and stacks right if and only if the cut is within the name of a link; otherwise it stays as it is |
| `Lowers.Driver.Reuse` | patch/0034-Try-to-repair-lowers-file-if-current-layer-is-reusin.patch:19-32 | dealing with a reused layer, its repair failing or not, keeps the commit's promise: layers stack right exactly if they were fit, and those above are as they were |
| `Lowers.Driver.Make` | vendor/github.com/containers/storage/drivers/overlay/overlay.go:441-521 | so does making a new layer; it works if the stack is not too deep, the files can be written and the layers below were fit |
| `Lowers.Driver.Commit` | patch/0034-Try-to-repair-lowers-file-if-current-layer-is-reusin.patch:19-32 | for a chain of any length, of reused and new layers in any mix and with any lowers files: the layers up to any dealt with stack over exactly their ancestors if and only if each was right before, or listed something missing and could be written, or is new; nothing listed leads nowhere when it comes through; it stops only at a new layer too deep, not writable or over one that was not fit |
| `Size.MatchesIff` | patch/0005-isulad-kit-vendor-fix-parseSize-of-float-accurancy.patch:28-28 | the expression matches exactly the well-formed sizes, and finds their parts in the only way there is |
| `Size.GuardIff` | patch/0005-isulad-kit-vendor-fix-parseSize-of-float-accurancy.patch:73-76 | the guard by division holds exactly if the product exceeds 2^63 - 1 |
| `Size.FractionFloor` | patch/0005-isulad-kit-vendor-fix-parseSize-of-float-accurancy.patch:63-71 | the fraction of a unit is rounded down, and less than the unit |
| `Size.SizeIsExact` | patch/0005-isulad-kit-vendor-fix-parseSize-of-float-accurancy.patch:41-85 | a well-formed size gives exactly the bytes meant if they fit 64 bits and an error otherwise |
| `Size.SpelledIsRead` | patch/0005-isulad-kit-vendor-fix-parseSize-of-float-accurancy.patch:41-85 | on the text alone: a size is read as the greatest number of bytes not more than the number times that power of 1000 or 1024, if it is below 2^63 |
| `Size.OthersRefused` | patch/0005-isulad-kit-vendor-fix-parseSize-of-float-accurancy.patch:28-28 | a text is refused if and only if it is not digits, fractions, perhaps a space, one of ten unit letters, and perhaps i and b in either case |
| `Size.OneFractionIsDecimal` | patch/0005-isulad-kit-vendor-fix-parseSize-of-float-accurancy.patch:61-85 | with one fraction the bytes meant are the decimal number times the unit, rounded down |
| `Size.OnlyLastFractionCounts` | patch/0005-isulad-kit-vendor-fix-parseSize-of-float-accurancy.patch:28-71 | of several fractions only the last is read |
| `Size.DecimalReadsBack` | patch/0005-isulad-kit-vendor-fix-parseSize-of-float-accurancy.patch:41-85 | a number written in decimal with a unit is read back as that many units, up to 2^63 - 1 |
| `Size.BinaryIsMore` | patch/0005-isulad-kit-vendor-fix-parseSize-of-float-accurancy.patch:41-85 | read in powers of 1024 a size is at least what it is in powers of 1000, so what fits that way fits this way |

## Left out

- gRPC, the command line, registries, copying, signatures, login, import and the daemon's set-up:
  thin wrappers, or code in libraries that are not part of this model.
- Device mapper, project quotas, encryption, chroot tar and SELinux labels.
- The reference library: parsing a name is the parameter `normalize`, and references by digest are
  not modelled. IDs and names share one lookup as in the code.
- Verifying a layer against its tar-split file: `CheckLayer` is a set of layers whose data match.
- Coherence.RunsAreSequential: does not cover a process that dies between writing its data and
  leaving the tag, nor a tag, write or load that fails, because the code ignores those errors and
  the property is false then.
- FileLocker.Locker.Lock: does not model waiting; it is called when the lock is free.
- Daemon mode in Coherence: the daemon is the only process and never reloads; its record files are
  the subject of `ImageStore` and `NameRuns`.
- Store.Store and ImageStore.ImageStore: maps stand for the slices of layers, images and containers,
  so the order in which listings report them is not captured; what the code does while walking a
  slice is proved for every order.
- ImageStore.ImageStore.Lookup and LayerStore.LayerStore.Lookup: without the lookup by a unique
  prefix of the ID, which is modelled in `ImageService.ImageService.Find` and `Strays.ExistsIn`. The
  image store's index by digest is not modelled.
- LayerStore.LayerStore: the record and tar-split files of a layer are the subject of `Migration`,
  and loading the list is left to `DigestIndex.LoadedAgrees` and, as image names are loaded the
  same way, to `Names.LoadedInverse`.
- MountFiles.RunDir.Mount: cleaning of the mount point's path, and calls that overlap on one layer,
  which the code does not lock against each other.
- Migration: layers only. Images and containers migrate in the same way, without tar-split files
  and driver data. A directory with a 64-character name inside another one is not modelled.
- Lowers.Driver: additional image stores, and paths in a lowers file other than links, the link
  directory ("l", "l/") and the driver's home (""), which count as leading nowhere although the home
  also holds the layers' directories. Errors of reading a lowers file other than its absence.
- Lowers.Driver.Commit: what it does with a layer's contents.
- Size.ParseSize: the fraction is an exact rational; rounding of floating-point numbers is not
  modelled.
- Read-only stores, listing and big-data items of images and containers.
