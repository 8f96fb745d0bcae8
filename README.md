# config_features in Dafny

A model of the engine of the Drupal module `config_features`. The engine
keeps configuration "features" out of the site's main configuration export
and brings them back on import.

A feature is a descriptor (`config_features.config_feature.<id>`) with these settings:
- a weight;
- an active status;
- a folder;
- patterns of configuration it *shares*;
- names it *excludes*;
- an overridable `stackable` flag.

The model covers these parts of the engine:

- **Split (export).** `featurePreview` moves every entry the feature shares out of the export into the feature's preview store. It takes the entries as the active store has them. "Shares" means a name matched by a shared pattern, or a config entity the dependency calculation deletes with them. This happens in the default collection and in every other collection. Excluded names never move.
- **Merge (import).** `mergeFeature` writes every entry of the feature's folder store into the store being imported. Each entry keeps the UUID the site already uses for it.
- **Lifecycle.**
  - The export and import transformation hooks, and `commitAll`.
  - The single-feature export preview, with its UUID alignment against the folder.
  - Import, activation and deactivation.
  - The stacked comparison store `prepareSyncForPartialComparison`. It merges heavier, active, stackable features in descending weight order.
- **UUID ignore.** `ConfigSubscriber::onImportTransform` runs in two passes:
  - Imported entries that the `configs_to_ignore_uuid_change` setting matches take the active site's UUID.
  - Every mention of a replaced UUID is then rewritten through the storage encoding, and the number of replacements is counted.
- **Form input.** `ConfigFeatureEntityForm` cleans the pattern lists, reads the picker and refuses a folder inside the sync directory.
- **Wildcards.** Written as an anchored glob matcher with PCRE's line-feed details. The matcher is proved equivalent to an independent "fill every `*`" reading.

These are modelled as values or parameters:
- A store's contents are a map from (collection, name) to an entry. An entry holds an optional `uuid`, an optional `status` and an opaque body.
- Stores the code changes in place are objects of class `Stores.Storage`, and their methods state the new contents.
- The surroundings of the engine are parameters:
  - the feature folders (`getSplitStorage`);
  - the preview tables;
  - the live and staged descriptors;
  - the dependency calculation of the config manager;
  - the storage encoding;
  - the sync directory setting;
  - the select-list choice of the form.

## Model

| member | source | states |
|---|---|---|
| PhpText.ContainsIff | src/Form/ConfigFeatureEntityForm.php:378-380 | the left-to-right `strpos(...) !== FALSE` scan succeeds exactly when some window of the subject equals the needle |
| PhpText.Contains | src/Form/ConfigFeatureEntityForm.php:379 | `strpos(...) !== FALSE` never finds a needle longer than the subject, finds one the subject starts with, and always finds the empty needle |
| PhpText.RTrim | src/Form/ConfigFeatureEntityForm.php:379 | `rtrim` returns a prefix, ends in a character other than the trimmed one, and removed only that character |
| PhpText.ToLower | src/Form/ConfigFeatureEntityForm.php:327-329 | `strtolower` keeps the length and lowercases exactly the ASCII capitals |
| PhpText.Explode | src/Form/ConfigFeatureEntityForm.php:324 | `explode` always yields at least one piece, and the first piece is a prefix of the text |
| PhpText.Implode | src/Form/ConfigFeatureEntityForm.php:201 | `implode` starts with the first piece, followed by the glue when more pieces come |
| PhpText.ImplodeExplode | src/Form/ConfigFeatureEntityForm.php:323-325 | gluing the pieces of `explode` back with the separator restores the text |
| PhpText.ExplodePiecesFree | src/Form/ConfigFeatureEntityForm.php:323-325 | no piece of `explode` contains the separator |
| PhpText.ReplaceAll | src/EventSubscriber/ConfigSubscriber.php:87 | `str_replace` leaves a subject without the search string unchanged, replacing a string by itself changes nothing, and a replacement of the same length keeps the length |
| PhpText.ReplaceAllIsImplode | src/EventSubscriber/ConfigSubscriber.php:88-89 | `str_replace` equals explode-then-implode with the replacement, and its count is the number of pieces less one |
| PhpText.NoCountNoChange | src/EventSubscriber/ConfigSubscriber.php:88-92 | when `str_replace` counts no replacement the subject is returned unchanged |
| PhpText.CountZeroIff | src/EventSubscriber/ConfigSubscriber.php:88-92 | the count is zero exactly when the search string does not occur |
| Wildcard.GlobComplete | src/ConfigFeaturesManager.php:735-748 | every text obtained by filling each `*` of a pattern with a line-feed-free run is matched by the pattern |
| Wildcard.GlobSound | src/ConfigFeaturesManager.php:735-748 | every text the pattern matches is such a filling (the two readings agree) |
| Wildcard.StarAbsorbs | src/EventSubscriber/ConfigSubscriber.php:136-140 | a `*` absorbs any line-feed-free run in front of a match of the rest of the pattern |
| Wildcard.WildcardMatch | src/EventSubscriber/ConfigSubscriber.php:136-140 | `wildcardMatch` accepts every glob match, and on a name without line feeds it is exactly the glob match (the `$` anchor adds only a final line feed) |
| Wildcard.InFilterList | src/ConfigFeaturesManager.php:735-748 | `inFilterList` is false for an empty list, and true for a name listed as it stands |
| Wildcard.GlobSelf | src/ConfigFeaturesManager.php:735-748 | every text matches itself as a pattern, since a `*` can stand for the `*` character |
| Wildcard.LiteralPattern | src/ConfigFeaturesManager.php:735-748 | a pattern without `*` matches exactly itself |
| Wildcard.LiteralPrefix | src/ConfigFeaturesManager.php:735-748 | literal characters before the first `*` must be matched verbatim |
| Wildcard.LoneStar | src/ConfigFeaturesManager.php:735-748 | a lone `*` matches exactly the names without line feeds |
| Wildcard.NodeTypeMatches | src/ConfigFeaturesManager.php:735-748 | `node.type.*` covers every `node.type.<bundle>` |
| Wildcard.NodeTypeRejectsPrefix | src/ConfigFeaturesManager.php:735-748 | `node.type.*` does not cover `node.type` |
| Wildcard.NodeTypeRejectsOther | src/ConfigFeaturesManager.php:735-748 | `node.type.*` does not cover `field.node.type.article` (the match is anchored) |
| Stores.Names | src/ConfigFeaturesManager.php:372 | a collection lists exactly the names it holds |
| Stores.Collections | src/ConfigFeaturesManager.php:278 | `getAllCollectionNames` lists every non-default collection holding an entry, and never the default one |
| Stores.Enumerate | src/ConfigFeaturesManager.php:306 | a listing names every member of the set once and nothing else |
| Stores.Storage.constructor | src/ConfigFeaturesManager.php:565-566 | a new memory store filled from a source holds exactly the source |
| Stores.Storage.Write | src/ConfigFeaturesManager.php:682 | a write sets one entry and changes nothing else |
| Stores.Storage.Delete | src/ConfigFeaturesManager.php:684 | a delete removes one entry and changes nothing else |
| Stores.Storage.DeleteAll | src/ConfigFeaturesManager.php:279 | `deleteAll` empties one collection and keeps the others |
| Stores.Storage.ReplaceContents | src/ConfigFeaturesManager.php:261 | `replaceStorageContents` leaves the target equal to the source |
| Stores.Storage.ListAll | src/ConfigFeaturesManager.php:372 | the listing of a collection is duplicate-free and names exactly its entries |
| Stores.Storage.GetAllCollectionNames | src/ConfigFeaturesManager.php:278 | the collection listing is duplicate-free and names exactly the store's collections |
| Features.NewFeature | src/Entity/ConfigFeatureEntity.php:78-113 | a new feature is active, of weight 0, shares and excludes nothing, and its config name carries the descriptor prefix |
| Features.FeatureConfigName | src/ConfigFeaturesManager.php:118-120 | the descriptor prefix is added exactly when the name does not start with it |
| Features.PrefixOnce | src/ConfigFeaturesManager.php:118-120 | prefixing is idempotent; an id and its prefixed name designate the same feature |
| Features.GetFeatureConfig | src/ConfigFeaturesManager.php:117-134 | the descriptor comes from the given storage when it holds it, otherwise from the live ones; none when neither does |
| Features.Unique | src/ConfigFeaturesManager.php:174 | `array_unique` keeps each value once and loses none |
| Features.UniquePrefix | src/ConfigFeaturesManager.php:174 | the unique listing of a concatenation starts with the unique listing of its first part |
| Features.ListAll | src/ConfigFeaturesManager.php:168-175 | the listing is duplicate-free, covers both sources, and lists the storage's features first |
| Features.LoadMultiple | src/ConfigFeaturesManager.php:189-196 | the union `+` keeps the descriptor from the given storage over the live one, and loads only requested, known names |
| Features.DotsToUnderscores | src/ConfigFeaturesManager.php:452 | `strtr` replaces every dot by an underscore and changes nothing else |
| Features.PreviewTableName | src/ConfigFeaturesManager.php:450-455 | the table name starts with the preview prefix and has no dot after it |
| Features.PreviewTableOfId | src/ConfigFeaturesManager.php:451-452 | the table of a dot-free id is the preview prefix followed by the id |
| Features.PreviewTablesDistinct | src/ConfigFeaturesManager.php:450-455 | two different dot-free ids never share a preview table |
| Split.Matching | src/ConfigFeaturesManager.php:306-309 | the complete list is exactly the active names some shared pattern matches |
| Split.MovedNames | src/ConfigFeaturesManager.php:296-348 | nothing moves when nothing is shared; no excluded name moves; every matched, non-excluded name of a collection moves; outside the default collection only names of that collection move |
| Split.SplitFeature | src/ConfigFeaturesManager.php:276-352 | the preview holds exactly the moved entries, with the active store's contents |
| Split.SplitTransforming | src/ConfigFeaturesManager.php:276-352 | the export loses exactly the moved names and keeps every other entry unchanged |
| Split.SplitNothingShared | src/ConfigFeaturesManager.php:301-332 | a feature sharing nothing splits nothing: empty preview, export unchanged |
| Split.SplitKeepsExcluded | src/ConfigFeaturesManager.php:323-325 | an excluded name stays in the export and never enters the preview, in every collection |
| Split.SplitTakesShared | src/ConfigFeaturesManager.php:306-347 | a matched, non-excluded active entry leaves the export and enters the preview, in every collection |
| Split.SplitKeepsUnshared | src/ConfigFeaturesManager.php:306-347 | an unmatched name is left alone unless, in the default collection, it depends on shared configuration |
| Split.SplitPartitions | src/ConfigFeaturesManager.php:276-352 | split from the active store, export and preview are disjoint and together make up the active store |
| Split.SplitIdempotent | src/ConfigFeaturesManager.php:276-352 | splitting the same feature again removes nothing more |
| Split.UpToComplete | src/ConfigFeaturesManager.php:332-350 | once every active collection is processed, the stores are the complete split |
| Split.SplitOneMore | src/ConfigFeaturesManager.php:333-349 | processing one more collection advances both stores by exactly that collection's plan |
| Split.MoveConfigToSplit | src/ConfigFeaturesManager.php:679-685 | the entry is copied when the source has it and deleted from the transforming store in any case |
| Split.MoveAll | src/ConfigFeaturesManager.php:322-328 | the loop moves exactly the listed, non-excluded names, reporting each |
| Split.ProcessDeletes | src/ConfigFeaturesManager.php:633-665 | the entities to delete, less the excluded ones, are moved to the feature; the update list changes nothing |
| Split.EmptyStorage | src/ConfigFeaturesManager.php:277-280 | emptying every collection leaves the preview store empty |
| Split.SplitShared | src/ConfigFeaturesManager.php:299-329 | the default-collection phase moves exactly the planned default names, and reports only names a shared pattern matches |
| Split.DefaultMoved | src/ConfigFeaturesManager.php:311-328 | dependents deleted by the resolver plus the unprocessed shared names, less exclusions, are the planned default names |
| Split.FeaturePreview | src/ConfigFeaturesManager.php:276-352 | afterwards the preview is `SplitFeature` and the export is `SplitTransforming` of what it held |
| Split.SplitCollections | src/ConfigFeaturesManager.php:331-350 | the collections phase completes the split started by the default phase |
| Split.SplitCollection | src/ConfigFeaturesManager.php:334-348 | one collection is split according to its plan |
| Split.CollectionMoved | src/ConfigFeaturesManager.php:338-345 | the remove list of a collection, less exclusions, is what the plan moves from it |
| Merge.Reconcile | src/ConfigFeaturesManager.php:373-384 | the feature's content is kept; the UUID is the importing store's when both are set and differ; when that test fails (no importing entry, no UUID on it, or the feature's own UUID) it is the active one's when both are set and differ; otherwise the entry is the feature's, unchanged |
| Merge.Merged | src/ConfigFeaturesManager.php:364-396 | every feature entry is written, reconciled; every other entry is kept |
| Merge.MergeKeepsSiteUuid | src/ConfigFeaturesManager.php:376-383 | when the importing store and the site agree on a UUID, the merged entry carries it with the feature's content |
| Merge.MergeIdempotent | src/ConfigFeaturesManager.php:364-396 | merging the same feature twice equals merging it once |
| Merge.ReconcileAgain | src/ConfigFeaturesManager.php:376-383 | reconciling against an already reconciled entry changes nothing |
| Merge.SplitMergeRestoresContent | src/ConfigFeaturesManager.php:276-396 | for any active store, splitting a feature out of it and merging it back gives back every entry with its status and content; only UUIDs can differ |
| Merge.SplitMergeRoundTrip | src/ConfigFeaturesManager.php:276-396 | when every non-default entry's UUID follows its default entry (`UuidsFollowDefault`), the split and merge give the active store back exactly, UUIDs included |
| Merge.MergeOneMore | src/ConfigFeaturesManager.php:372-386 | one step of the merge loop reads the untouched entry and writes its reconciled form |
| Merge.MergeComplete | src/ConfigFeaturesManager.php:369-388 | once every feature key is processed, the store is the merge |
| Merge.MergeFeature | src/ConfigFeaturesManager.php:364-396 | afterwards the transforming store is the merge of the feature into what it held |
| Merge.MergeCollection | src/ConfigFeaturesManager.php:370-387 | one collection's loop merges exactly that collection's feature entries |
| Manager.ExportTransform | src/ConfigFeaturesManager.php:207-221 | a known, active feature is split out of the export into its preview; otherwise both stores are unchanged |
| Manager.ImportTransform | src/ConfigFeaturesManager.php:231-244 | a feature known to the import (or the site), active and with a folder store is merged into the import; otherwise the import is unchanged |
| Manager.CommitAll | src/ConfigFeaturesManager.php:249-264 | stores no active feature uses are untouched; a used store holds the preview of one of its features, and of the only one when unique |
| Manager.Aligned | src/ConfigFeaturesManager.php:484-494 | conflicting entries take the folder's UUID; contents, keys and every other entry are kept |
| Manager.AlignedHasNoConflict | src/ConfigFeaturesManager.php:484-494 | after alignment no default-collection entry disagrees with the folder on its UUID |
| Manager.AlignIdempotent | src/ConfigFeaturesManager.php:484-494 | aligning twice equals aligning once |
| Manager.AlignOneMore | src/ConfigFeaturesManager.php:486-492 | one step of the alignment loop rewrites exactly a conflicting entry |
| Manager.SingleExportPreview | src/ConfigFeaturesManager.php:466-496 | an inactive feature is split into the preview first; without a folder store the call fails, otherwise the preview ends aligned and is returned |
| Manager.SingleImportOrActivate | src/ConfigFeaturesManager.php:605-619 | a copy of the active store with the folder merged in, and with the descriptor active when activating |
| Manager.SingleImport | src/ConfigFeaturesManager.php:526-545 | import and activation fail exactly without a folder store, and otherwise return the merged copy |
| Manager.ImportKeepsActiveUuid | src/ConfigFeaturesManager.php:605-619 | a default-collection entry the import brings keeps the UUID the site uses |
| Manager.SingleDeactivate | src/ConfigFeaturesManager.php:560-590 | an inactive feature is rejected unless overridden; otherwise the preview holds the split, the folder receives it when asked (failing without a store), and the descriptor is switched off unless overridden |
| Manager.DeactivateActivateRoundTrip | src/ConfigFeaturesManager.php:560-619 | deactivating an active feature and activating it again from its exported split restores the active store exactly |
| Manager.MergeBack | src/ConfigFeaturesManager.php:364-396 | merging the exported split back into the deactivated store adds it unchanged |
| Manager.SplitLeavesNoTrace | src/ConfigFeaturesManager.php:560-590 | an entry split off is gone from the deactivated store, and so is the default entry of its name |
| Manager.InsertByWeight | src/ConfigFeaturesManager.php:707-710 | inserting into a list ordered by descending weight keeps it ordered and adds exactly one name |
| Manager.SortByWeight | src/ConfigFeaturesManager.php:707-710 | the `uasort` result is a permutation in descending weight order |
| Manager.StackOf | src/ConfigFeaturesManager.php:713-719 | the loop merges exactly the active, stackable, heavier features other than the compared one, drawn from the list |
| Manager.StackDescending | src/ConfigFeaturesManager.php:707-719 | the features merged come in descending weight order |
| Manager.Compose | src/ConfigFeaturesManager.php:712-718 | merging the features one after the other keeps everything the copy of the sync store held, and fails (`singleExportTarget`) exactly when a feature to merge has no folder store |
| Manager.PrepareSyncForPartialComparison | src/ConfigFeaturesManager.php:696-722 | a non-stackable feature compares against the sync store; otherwise the stacked features are merged into a copy of it, heaviest first, each once |
| Manager.MergeStack | src/ConfigFeaturesManager.php:713-719 | the loop's result is the composition over exactly the stacked features of the list, in list order |
| Manager.OrderFacts | src/ConfigFeaturesManager.php:705-719 | the merge order holds exactly the stacked features, in descending weight, each once |
| Manager.StackCandidates | src/ConfigFeaturesManager.php:705-706 | removing the compared feature leaves every other listed feature once |
| UuidIgnore.MatchConfigName | src/EventSubscriber/ConfigSubscriber.php:108-123 | `matchConfigName` is the filter-list rule applied to the patterns before the first `:` of the settings |
| UuidIgnore.ExplodeFirstPiece | src/EventSubscriber/ConfigSubscriber.php:116-117 | the text after the first `:` never reaches the pattern |
| UuidIgnore.SettingPatternOnly | src/EventSubscriber/ConfigSubscriber.php:108-123 | a setting `pattern:keys` matches exactly the names its pattern matches |
| UuidIgnore.SettingWithoutKeys | src/EventSubscriber/ConfigSubscriber.php:116 | a setting without `:` is its own pattern |
| UuidIgnore.Adopted | src/EventSubscriber/ConfigSubscriber.php:67-77 | matched entries whose filled UUID differs from the site's take the site's UUID; nothing else changes |
| UuidIgnore.AdoptedAgrees | src/EventSubscriber/ConfigSubscriber.php:67-77 | after the first pass every matched entry with filled UUIDs carries the site's UUID |
| UuidIgnore.AdoptIdempotent | src/EventSubscriber/ConfigSubscriber.php:67-77 | a second first pass changes nothing |
| UuidIgnore.Put | src/EventSubscriber/ConfigSubscriber.php:73 | a PHP array assignment updates the value, appending a new key and keeping an existing key's place |
| UuidIgnore.Changes | src/EventSubscriber/ConfigSubscriber.php:64-78 | the replacement list is a well-formed PHP array: every key once, each with its value |
| UuidIgnore.ChangesInOrder | src/EventSubscriber/ConfigSubscriber.php:64-78 | the list built from any prefix of the walk leads the final list, so the keys come in the order of their first replacement |
| UuidIgnore.ChangesEmpty | src/EventSubscriber/ConfigSubscriber.php:80 | the replacement list is empty exactly when the first pass replaced nothing |
| UuidIgnore.ChangesKeys | src/EventSubscriber/ConfigSubscriber.php:71-73 | the UUID of every replaced entry is a key of the replacement list |
| UuidIgnore.ChangesValues | src/EventSubscriber/ConfigSubscriber.php:71-73 | every key is a replaced entry's old UUID, mapped to that entry's site UUID |
| UuidIgnore.ChangesSearchable | src/EventSubscriber/ConfigSubscriber.php:71 | no key of the replacement list is empty |
| UuidIgnore.CountChainZero | src/EventSubscriber/ConfigSubscriber.php:84-92 | the summed count is zero exactly when no UUID to replace occurs, and then the text is unchanged |
| UuidIgnore.ReplaceUuids | src/EventSubscriber/ConfigSubscriber.php:84-90 | the loop applies every replacement in insertion order and sums the counts |
| UuidIgnore.Rewritten | src/EventSubscriber/ConfigSubscriber.php:81-95 | an entry is re-decoded from its rewritten encoding exactly when some replacement happened; others are untouched |
| UuidIgnore.NothingToRewrite | src/EventSubscriber/ConfigSubscriber.php:80 | with an empty list the second pass would change nothing, so skipping it is only a shortcut |
| UuidIgnore.RewriteOnlyMentions | src/EventSubscriber/ConfigSubscriber.php:81-95 | an entry whose encoding mentions no replaced UUID keeps its content |
| UuidIgnore.AdoptOneMore | src/EventSubscriber/ConfigSubscriber.php:68-76 | one step of the first loop rewrites exactly a replaced entry |
| UuidIgnore.RewriteOneMore | src/EventSubscriber/ConfigSubscriber.php:82-94 | one step of the second loop writes exactly the rewritten entry |
| UuidIgnore.OnImportTransform | src/EventSubscriber/ConfigSubscriber.php:63-97 | afterwards the import is the two-pass transformation of what it held, for the listing order of its names |
| UuidIgnore.ImportTransformed | src/EventSubscriber/ConfigSubscriber.php:63-97 | the transformation keeps every key, never touches other collections, and changes nothing when no entry needs a UUID replaced |
| UuidIgnore.ChainUndoesAdoption | src/EventSubscriber/ConfigSubscriber.php:84-90 | the chained `str_replace` calls can undo an adoption: an import with `a`:x, `b`:y onto a site with `a`:y, `b`:z leaves `a` with z after the first pass gave it y |
| UuidIgnore.AdoptUuids | src/EventSubscriber/ConfigSubscriber.php:64-78 | the first loop leaves the adopted store and returns the replacement list it built |
| UuidIgnore.RewriteMentions | src/EventSubscriber/ConfigSubscriber.php:81-96 | the second loop leaves the rewritten store |
| FeatureForm.StripIllegal | src/Form/ConfigFeatureEntityForm.php:332 | the result holds only `[a-z0-9_.*-]`, is no longer than the input, equals it when nothing was illegal, and keeps a single character exactly when it is allowed (with `StripAppend`, each character is kept or dropped on its own) |
| FeatureForm.StripAppend | src/Form/ConfigFeatureEntityForm.php:332 | removing illegal runs equals removing illegal characters one by one, part by part |
| FeatureForm.CarriageReturnStripped | src/Form/ConfigFeatureEntityForm.php:323-332 | the carriage return a CR LF line break leaves at the end of a line disappears |
| FeatureForm.KeepTruthy | src/Form/ConfigFeatureEntityForm.php:332 | `array_filter` keeps exactly the truthy entries (not "" or "0") |
| FeatureForm.KeepTruthyAppend | src/Form/ConfigFeatureEntityForm.php:332 | the filter works entry by entry, so survivors keep their order |
| FeatureForm.KeepTruthyAll | src/Form/ConfigFeatureEntityForm.php:332 | a list with nothing falsy passes unchanged |
| FeatureForm.UppercaseKept | src/Form/ConfigFeatureEntityForm.php:327-332 | lowercasing comes first, so capitals are kept as lowercase letters, not stripped |
| FeatureForm.UppercaseLetter | src/Form/ConfigFeatureEntityForm.php:327-332 | a single capital letter survives as its lowercase form |
| FeatureForm.Cleaned | src/Form/ConfigFeatureEntityForm.php:327-332 | every cleaned pattern is non-empty, not "0", and made of allowed characters |
| FeatureForm.Candidates | src/Form/ConfigFeatureEntityForm.php:323-325 | a text splits into line-feed-free lines that rejoin to the text; a list is taken as given |
| FeatureForm.FilterConfigNames | src/Form/ConfigFeatureEntityForm.php:322-333 | the loop lowercases each candidate in place; the result is the cleaned candidates, each non-empty, not "0" and made of allowed characters |
| FeatureForm.ReadValuesFromPicker | src/Form/ConfigFeatureEntityForm.php:299-311 | a select list is kept as posted; checkboxes keep exactly the options posted with a truthy value |
| FeatureForm.PickerNames | src/Form/ConfigFeatureEntityForm.php:251 | `array_keys` gives the picked names in order |
| FeatureForm.BuildConfigList | src/Form/ConfigFeatureEntityForm.php:247-262 | the stored list is the picked names followed by the cleaned patterns, and holds every picked name |
| FeatureForm.Padded | src/Form/ConfigFeatureEntityForm.php:379 | a trimmed path with its slash added ends in a slash |
| FeatureForm.IsConflicting | src/Form/ConfigFeatureEntityForm.php:378-380 | the folder conflicts exactly when the padded sync path occurs somewhere in the padded folder |
| FeatureForm.ValidateFolder | src/Form/ConfigFeatureEntityForm.php:236-242 | the folder is refused exactly when it conflicts |
| FeatureForm.SyncConflicts | src/Form/ConfigFeatureEntityForm.php:378-380 | the sync directory itself conflicts, with any number of trailing slashes |
| FeatureForm.TrimSlashes | src/Form/ConfigFeatureEntityForm.php:379 | trailing slashes added to a path are trimmed away |
| FeatureForm.SubfolderConflicts | src/Form/ConfigFeatureEntityForm.php:378-380 | every folder below the sync directory conflicts |
| FeatureForm.UnsetSyncConflicts | src/Form/ConfigFeatureEntityForm.php:378-380 | with no sync directory set, every folder conflicts |

Where the module's prose description and its code differ, the model follows the code:

- `Merge.Reconcile` falls back to the active store's UUID whenever the first test fails. That covers an importing entry that is missing, has no UUID, or has the same UUID as the feature. A missing importing entry is not the only case.
- The stacked comparison store starts from the sync store, not from the active store.
- Features of equal weight keep their listing order. `uasort` is stable, and there is no tie-break by name.
- The split/merge round trip gives back every entry's status and content for any store (`Merge.SplitMergeRestoresContent`). UUIDs come back exactly as well when the store satisfies `Merge.UuidsFollowDefault` (`Merge.SplitMergeRoundTrip`). So the round trip is more than "modulo UUID fields" for such stores.
- The second pass of `onImportTransform` applies the replacement pairs one after the other to the same text, so a UUID written by one pair is searched for by a later one. An adopted UUID can therefore be replaced again; `UuidIgnore.ChainUndoesAdoption` shows a case. The model keeps the chain as the code has it.

## Left out

- Filesystem and database: `getSplitStorage` (directory creation, `.htaccess`, `vfs://`) is a `folders` map from a folder setting to its store. `getPreviewStorage` is a `Storage` parameter, or a `tables` map when the preview is only read.
- Descriptor loading: the config factory, `EphemeralConfigFactory` and the config overrides are `live`/`staged` maps of descriptors. `getFeatureEntity` and its `RuntimeException` are not modelled; they are entity loading.
- `singleExportTarget` has no member of its own. Its `RuntimeException` without a folder store is the `Failure` of `Manager.Compose`.
- The dependency calculation of the config manager (`getConfigEntitiesToChangeOnDependencyRemoval`) is a function parameter returning the names to delete. Its `update` list has no effect in the code and is not modelled.
- YAML encoding and decoding of the storage are function parameters of the UUID-ignore transformation.
- `UuidIgnore.IgnorePattern` uses a full `explode` where the code passes the limit 2. Only the first piece is used, and it is the same either way.
- `matchConfigName` reads the ignore setting once and caches it in a static variable. The setting is a parameter, so the cache is not modelled.
- `onExportTransform` is not modelled. Its body is entirely commented out, so it does nothing.
- `Manager.CommitAll` reads the descriptors listed under `config_feature` as `live`. It does not model other configuration sharing that prefix.
- `Manager.SingleExportPreview` does not model the forced `listAll` on the export storage. That call only triggers the export transformation, which is `Manager.ExportTransform`.
- `Manager.SingleExportPreview` and `Manager.SingleDeactivate` do not model the `RuntimeException` for a missing preview store. `getPreviewStorage` always returns a store.
- Collections of a store are the collections holding an entry. An empty collection that a store still reports is not modelled.
- The listing order of stores is unspecified: `Enumerate` chooses one, and `UuidIgnore.OnImportTransform` and `Manager.PrepareSyncForPartialComparison` return the order they used.
- `Merge.Reconcile` and `UuidIgnore.Replaced` read PHP's loose `!=` on UUIDs as string inequality. `in_array` without strict mode is read as membership.
- PHP integer-like array keys (a config name such as `"12"`) and the renumbering they cause are not modelled.
- `useSelectList` (a state override, or the `chosen`/`select2_all` modules) is a boolean parameter of `FeatureForm.ReadValuesFromPicker`. An unchecked checkbox posts `0`, modelled as the string `"0"`.
- `FeatureForm.ValidateFolder` does not model the translated message or the form API; it returns the message text.
- Which PHP version's `strtolower` applies: the model lowercases ASCII only, as PHP 8.2 does. Locale-dependent lowercasing is not modelled.
- Stores the code aliases (one store passed in two roles) are required to be distinct objects.
- `stackable` is not among the exported fields of the descriptor, so outside an override `Manager.PrepareSyncForPartialComparison` returns the sync store. The model keeps the flag as a field.
- The rest of the repository (controllers, list and view builders, the settings, import, activate, deactivate and export forms, `ConfigImportFormTrait`) is user interface around these operations and is not part of this model.
