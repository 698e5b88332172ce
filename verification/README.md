# DSH Spaces: verified models

Dafny models of the parts of DSH Spaces whose correctness is hard to see from
the code alone, and proofs of what those parts promise.

- **Share codes** (`Base64Url`, `Utf8`, `ShareCodec`): a blueprint becomes
  `DSHBP1:J:` or `DSHBP1:Z:` and unpadded base64url (sections 3.2, 3.5 and 5 of
  RFC 4648), and comes back through a strict decoder. Bytes and sextets are
  computed, UTF-8 is encoded and strictly decoded, and only JSON text and raw
  DEFLATE (RFC 1951) are assumed to be inverse pairs.
- **JSON pointers** (`JsonTree`, `PointerText`, `JsonPointer`, `LocalPaths`,
  `PatchEntries`, `Provenance`, `BindingOverrides`): escaping, walking, reading and
  writing along section 4 of RFC 6901 on arbitrary trees, the search for
  undeclared local paths, the relocation of recorded bindings, and binding
  overrides.
- **Plans and apply** (`PlanStore`, `ApplyPipeline`): the single-use plan store
  under interleaved previews, and the staged pipeline with every outcome it
  publishes.
- **Component handoff and refresh** (`WaitForOldGone`, `Handoff`, `StopService`,
  `DevelopmentRefresh`): the launcher protocol as a transition system in which any
  process may die and any message may come at any time, and the evidence-first
  update with a throw or a crash at any step.
- **Desktop client** (`ServiceClient`, `DesktopStartup`, `StopSpaces`): the
  connector's calls interleaved with its one asynchronous run, the one-shot
  launch, and the stop-all loop against a server that may answer anything.
- **Bounded loops** (`Dashboard`, `StableSort`, `StableValue`, `PayloadManifest`,
  `PayloadCopy`): first-fit pinning, batched reads, the canonical manifest and the
  text its digest is taken of, and the verified copy.

Code that changes state is a class or a method with a loop; each such method is
tied to a function or a predicate about which the properties are then proved.
The code between two awaits is one step, and callbacks do not re-enter.

What is assumed of the surroundings: JSON text and DEFLATE undo themselves; a
random identifier is new; a liveness answer `dead` is true and stays true; the run
lock has one owner and its handoff goes from launcher to authorized to accepted
(`src/adapters/node/home-controller.ts`); SHA-256, the collation keys, path and
version tests are parameters.

Some properties one might expect of the code do not hold; the model keeps the
code and states exactly when they do:

- the cap of 16 plans holds on every run exactly when previews do not overlap;
  with k of them in flight the bound is 15 + k, and it is reached. The cap of 16 MiB
  then holds exactly when 15 + k previews of the largest size fit;
- nobody moves the selected pointer while the previous owner lives exactly when no
  cold start that had seen the Home free is left over from before that owner took it;
- after an accepted handoff the selected pointer stays the committed one exactly
  until the new owner lets the Home go, if no such cold start may still write; the
  launcher may record the acceptance after that;
- a development refresh that throws and leaves no evidence has changed nothing,
  except exactly when its commit was complete and the release of the Home lock or
  the cold start lock threw; everything is then the new payload's;
- a start request that lands after a run has returned and before its `finally`
  starts nothing by itself, and a later plain `connect` acts on it;
- stopped and remaining spaces make up the targets on every return, whatever the
  server answers later, exactly when its first state lists no target twice;
- the installation lease is released exactly once, except exactly when it was not let
  go before the pointer was written and the last attempt to release it throws;
- normalizing a manifest forgets the order of the files exactly when the collation
  never finds two different listed paths equal;
- a share code decodes exactly when it is within the decoder's limit, which every
  `shortest` code is;
- a newly bound place ends as null in the returned patch and settings exactly when it
  lies strictly inside one of them and no place strictly above it, also inside, is
  bound later; a section bound as a whole is returned as it was;
- the suffix that relocates a recorded binding is the part of its pointer below its
  entry exactly when that entry is not inside a group.

The re-encode comparison of the base64url decoder, the later byte-order-mark test,
the second epoch comparison of the stop-all loop and the clamp of the plan total
to zero are shown never to act.

## Model

| member | source | states |
|---|---|---|
| Base64Url.BuildTable | src/adapters/node/blueprint-codec.ts:22-29 | the loop fills the table with the index of every alphabet character and 255 elsewhere |
| Base64Url.SourceTable | src/adapters/node/blueprint-codec.ts:22-29 | the table of the source alphabet gives every byte code the index of its symbol, and 255 to every code outside the alphabet |
| Base64Url.DecodeUndoesEncode | src/adapters/node/blueprint-codec.ts:134-166 | every nonempty byte string comes back from its unpadded base64url text |
| Base64Url.AcceptsExactlyEncodings | src/adapters/node/blueprint-codec.ts:134-162 | the payloads accepted are exactly the encodings of nonempty byte strings |
| Base64Url.NeverNotCanonical | src/adapters/node/blueprint-codec.ts:158-160 | the re-encode comparison never fires: alphabet, length and leftover bits already decide |
| Base64Url.DecodeInjective | src/adapters/node/blueprint-codec.ts:134-162 | two accepted payloads with the same bytes are the same text |
| Base64Url.EncodedGroups | src/adapters/node/blueprint-codec.ts:164-166 | every four sextets of the encoding are the 24-bit number of their three bytes, most significant first, zero for what is absent |
| Base64Url.EncodedText | src/adapters/node/blueprint-codec.ts:22-29 | the text has one alphabet symbol for each sextet, and ceil(4n/3) of them for n bytes |
| Base64Url.RefusedExactly | src/adapters/node/blueprint-codec.ts:134-143 | which payloads are refused for a character, for their length and for being empty |
| Utf8.DecodeUndoesEncode | src/adapters/node/blueprint-codec.ts:82 | strict UTF-8 decoding undoes encoding on every text of Unicode scalar values |
| Utf8.EncodeUndoesDecode | src/adapters/node/blueprint-codec.ts:82-90 | bytes that decode strictly are the encoding of what they decode to |
| Utf8.CharLayout | src/adapters/node/blueprint-codec.ts:93-94 | the shortest form by size, the length announced in the first byte, and six bits of the number in each continuation byte |
| ShareCodec.TrimInPlace | src/adapters/node/blueprint-codec.ts:168-174 | the two-index loop cuts exactly the outer space, tab, CR and LF |
| ShareCodec.TrimOuter | src/adapters/node/blueprint-codec.ts:168-178 | outer white space around a text without any at its ends is removed, and only that |
| ShareCodec.TrimCuts | src/adapters/node/blueprint-codec.ts:168-178 | what is cut off is spaces, tabs, CR and LF only, and none of these is left at an end |
| ShareCodec.ShareRoundTrip | src/adapters/node/blueprint-codec.ts:35-57 | for every mode and outer white space an encoded blueprint decodes to itself exactly when the code is within the share limit, else is too large |
| ShareCodec.ShortestAlwaysFits | src/adapters/node/blueprint-codec.ts:35-42 | from JSON within 1 MiB the J and shortest codes always exist and fit 2 MiB, whatever DEFLATE does to the size |
| ShareCodec.JsonRoundTrip | src/adapters/node/blueprint-codec.ts:44-57 | bare JSON text within its limit decodes as well, with outer white space |
| ShareCodec.JCodeIsCanonical | src/adapters/node/blueprint-codec.ts:59-103 | a J code that decodes is the very code its JSON encodes to |
| ShareCodec.BomTestIsComplete | src/adapters/node/blueprint-codec.ts:78-85 | the decoded text starts with a byte order mark exactly when the bytes do, so the second test never fires |
| ShareCodec.CodeText | src/adapters/node/blueprint-codec.ts:93-103 | the J code is the prefix, J and the base64url of the UTF-8 bytes, the Z code that of their DEFLATE stream; both exist exactly for JSON within 1 MiB |
| ShareCodec.ShortestIsShortest | src/adapters/node/blueprint-codec.ts:35-42 | the shortest code is the J or the Z code, no longer than either, and the J code when both have one length |
| ShareCodec.AcceptsExactly | src/adapters/node/blueprint-codec.ts:44-103 | exactly what decodes: within 2 MiB after trimming, a code whose letter and canonical payload carry mark-free UTF-8 JSON within 1 MiB in a stream that ends where the payload does, or a bare JSON text, that parses |
| ShareCodec.LetterExactly | src/adapters/node/blueprint-codec.ts:59-71 | a code is invalid exactly for its letter, and then refused as base64 exactly when no bytes encode to its payload |
| ShareCodec.PackedExactly | src/adapters/node/blueprint-codec.ts:105-132 | what inflating decides: too large, broken, more or less than the whole payload, or the JSON bytes |
| ShareCodec.BytesExactly | src/adapters/node/blueprint-codec.ts:72-90 | JSON bytes are refused for size, then for a mark, then as no UTF-8, each exactly |
| ShareCodec.TextExactly | src/adapters/node/blueprint-codec.ts:44-57 | within the limit a code's error is handed on, and JSON that does not parse is no blueprint |
| PointerText.TokenRoundTrip | src/adapters/node/blueprint-workbench.ts:2301-2307 | the two sequential global replaces undo the escape for every key |
| PointerText.TokensOfRender | src/adapters/node/blueprint-workbench.ts:2235-2237 | splitting and decoding a rendered pointer gives its path, empty keys and keys with tilde or slash included |
| PointerText.RenderInjective | src/adapters/node/blueprint-workbench.ts:2153-2169 | different paths have different pointers |
| PointerText.ArrayIndexOfDecimal | src/adapters/node/blueprint-workbench.ts:2240-2243 | a token names an array place exactly when it is the decimal print of an index below the length |
| PointerText.TokenByChar | src/adapters/node/blueprint-workbench.ts:2305-2307 | the escape goes character by character, tilde to ~0 and slash to ~1, and keeps every other |
| PointerText.DecodeByChar | src/adapters/node/blueprint-workbench.ts:2301-2303 | decoding from the left on any text, well-formed or not: ~1 is a slash, ~0 a tilde, all else is kept |
| PointerText.SplitExactly | src/adapters/node/blueprint-workbench.ts:2235-2237 | splitting cuts at every slash and loses nothing |
| PointerText.NoLeadingZero | src/adapters/node/blueprint-workbench.ts:2240-2243 | an index prints without leading zeros |
| JsonPointer.PointerExists | src/adapters/node/blueprint-workbench.ts:2235-2252 | the walking loop answers whether the path leads to a place of the tree |
| JsonPointer.ReadPointer | src/adapters/node/blueprint-workbench.ts:2273-2287 | for a pointer that exists the loop returns the value at its path |
| JsonPointer.SetAtReads | src/adapters/node/blueprint-workbench.ts:2289-2299 | what every path reads after a write: inside the new value, above the rewritten subtree, elsewhere as before |
| JsonPointer.SetAtSucceedsIff | src/adapters/node/blueprint-workbench.ts:2289-2299 | a write succeeds exactly on a place that exists or on a new property of an object that does |
| JsonTree.PutPlace | src/adapters/node/blueprint-workbench.ts:2289-2299 | an assignment keeps the place of a key that is there and appends one that is not |
| JsonPointer.PutThenGet | src/adapters/node/blueprint-workbench.ts:2273-2299 | a write at an existing pointer succeeds and is read back |
| JsonPointer.GetThenPut | src/adapters/node/blueprint-workbench.ts:2273-2299 | writing back the value that is there leaves the tree as it is |
| JsonPointer.PutThenPut | src/adapters/node/blueprint-workbench.ts:2289-2299 | the second of two writes wins without a trace of the first |
| JsonPointer.SetPointerFrame | src/adapters/node/blueprint-workbench.ts:2289-2299 | a pointer neither above nor below the written one keeps existence and value |
| JsonPointer.SetAtWellFormed | src/adapters/node/blueprint-workbench.ts:2289-2299 | a write keeps the keys of every object distinct |
| LocalPaths.VisitSound | src/adapters/node/blueprint-workbench.ts:2153-2169 | every pointer visited exists and reads back exactly the visited value |
| LocalPaths.VisitComplete | src/adapters/node/blueprint-workbench.ts:2153-2169 | every place of the tree is visited at its own pointer |
| LocalPaths.FoundBelowBase | src/adapters/node/blueprint-workbench.ts:2120-2136 | the pointers found are exactly those of the strings that look like local paths |
| LocalPaths.UndeclaredLocalsExact | src/adapters/node/blueprint-workbench.ts:2108-2118 | null is returned exactly when every local path of patch and settings sits at a bound pointer; a reported pointer holds an unbound one |
| LocalPaths.ReportedIsFirst | src/adapters/node/blueprint-workbench.ts:2108-2127 | what is reported is the first unbound local path in document order, in the patch before the settings; visiting a property twice changes nothing |
| LocalPaths.LocalValues | src/adapters/node/blueprint-workbench.ts:2123-2136 | only a string is a local path, and exactly in one of four forms: a file URL, a drive with either slash at the start, one leading slash that is not alone or doubled, a drive with a backslash anywhere |
| PatchEntries.WalkIsExact | src/adapters/node/blueprint-workbench.ts:2191-2210 | the walk lists exactly the entries an independent path reading finds, each once, at its own path |
| PatchEntries.EntryAtWalks | src/adapters/node/blueprint-workbench.ts:2191-2210 | the path of an entry leads to it in the patch itself |
| PatchEntries.TopEntries | src/adapters/node/blueprint-workbench.ts:2201-2208 | an item is an entry unless it reads an array at insert; every row of that array then is one |
| PatchEntries.GroupEntries | src/adapters/node/blueprint-workbench.ts:2191-2200 | which rows of an entry are entries: it reads true at group and an array at config, and the row is an object with an id and no insert |
| PatchEntries.NoOtherEntries | src/adapters/node/blueprint-workbench.ts:2191-2210 | every entry is an item, an inserted row or a row of an entry |
| Provenance.ParentAndLeaf | src/adapters/node/blueprint-workbench.ts:2254-2264 | cutting a pointer at its last slash cuts its path at the last token, which is that token |
| Provenance.EnsureLeafExact | src/adapters/node/blueprint-workbench.ts:1162-1172 | a place is found exactly when it exists or its parent is an object; the tree then has that place and at most one added null |
| Provenance.LocateEntryExact | src/adapters/node/blueprint-workbench.ts:1173-1200 | with exactly one matching entry the search goes to the recorded suffix below it, wherever it sits; with none or several it fails |
| Provenance.LocatedInsideEntry | src/adapters/node/blueprint-workbench.ts:1156-1203 | a successful search for an entry binding ends inside the one matching entry at the recorded config suffix, and nothing beside that place changed |
| Provenance.SuffixIsBelowEntry | src/adapters/node/blueprint-workbench.ts:2266-2271 | the suffix taken from a pointer below an entry is the part below that entry exactly when the entry is not inside a group |
| Provenance.RecordThenLocate | src/adapters/node/blueprint-workbench.ts:1156-1203 | recorded below an ungrouped entry and searched after any reordering, the pointer found is the same suffix below the one matching entry's new place |
| Provenance.LocateWithoutEntry | src/adapters/node/blueprint-workbench.ts:1156-1203 | of the search itself: an empty pointer is missing; under /profile/settings the place is found if it exists, or added as the only null if its parent is an object; elsewhere only a place that exists |
| Provenance.LocateByEntry | src/adapters/node/blueprint-workbench.ts:1173-1200 | of the search itself: with an entry id, the config suffix below the one entry with the recorded id and name, or missing without a suffix or with no or several such entries |
| Provenance.OnlyMatchReads | src/adapters/node/blueprint-workbench.ts:1177-1181 | the one entry is the only one that reads the recorded id, and the recorded name if there is one |
| BindingOverrides.ApplyBindingOverrides | src/adapters/node/blueprint-workbench.ts:1205-1236 | the loop computes the overrides one after another over a local root, with the first error in their order, and returns the patch and the settings but not that root |
| BindingOverrides.OverrideExactly | src/adapters/node/blueprint-workbench.ts:1219-1233 | exactly when one override fails on a missing place, or on an input bound elsewhere or declared unbound, when it repeats a binding and changes nothing, and what it appends and writes otherwise |
| BindingOverrides.RunsInTurn | src/adapters/node/blueprint-workbench.ts:1219-1233 | a list of overrides is its parts in turn, and the first that fails ends it |
| BindingOverrides.OverridesAppend | src/adapters/node/blueprint-workbench.ts:1219-1235 | success only appends one input and one binding per new place, writes null in the root at those places in turn and in each section at those inside it, keeps ids unique and every input declared |
| BindingOverrides.BoundPlaceEndsNull | src/adapters/node/blueprint-workbench.ts:1212-1235 | in the returned patch and settings a newly bound place ends as null exactly when it lies strictly inside one of them and no place strictly above it, also inside, is bound later; inside, it is gone otherwise |
| BindingOverrides.CutOutSectionKept | src/adapters/node/blueprint-workbench.ts:1212-1235 | a section that is bound as a whole, or with the profile, is returned as it was just before, whatever is bound after it |
| BindingOverrides.WholeSectionUntouched | src/adapters/node/blueprint-workbench.ts:1212-1235 | binding the pointer of the whole patch or settings succeeds, declares its input and returns both sections untouched |
| BindingOverrides.PrefixFreeOverrides | src/adapters/node/blueprint-workbench.ts:1205-1236 | without an override above another every newly bound place is returned as null exactly when it lies inside a section, and every place of patch and settings beside all of them is returned as it was |
| PlanStore.TotalWithout | src/adapters/node/blueprint-workbench.ts:691-696 | the byte total is that plan's bytes more than the total of the other plans, whichever plan is taken out |
| PlanStore.Store.DeletePlan | src/adapters/node/blueprint-workbench.ts:691-696 | one plan leaves and the total drops by exactly its bytes; the clamp to zero never acts |
| PlanStore.Store.PrunePlans | src/adapters/node/blueprint-workbench.ts:698-702 | exactly the expired plans leave and the total stays the sum over the map |
| PlanStore.Store.CheckCaps | src/adapters/node/blueprint-workbench.ts:330-339 | after pruning the answer is the first cap the preview would pass, or none |
| PlanStore.Store.InsertPlan | src/adapters/node/blueprint-workbench.ts:341-355 | one plan is added with the expiry of the time it was checked, and the total stays the sum |
| PlanStore.Store.ConsumePlan | src/adapters/node/blueprint-workbench.ts:672-689 | handed out exactly if it is there, unexpired and saw the target as it is, with the consumed mark; the target has changed exactly if it is unexpired and saw another; in every case exactly the other unexpired plans remain |
| PlanStore.StoreBounds | src/adapters/node/blueprint-workbench.ts:330-355 | with k previews in flight at most 15 + k plans and k - 1 previews' bytes over the cap; handed out plans were unexpired, had an equal observation and are handed out once |
| PlanStore.InsertedIsHandedOut | src/adapters/node/blueprint-workbench.ts:341-355 | on every run a plan inserted and neither consumed nor expired since is handed out to a consume that sees what it saw, with five minutes from its cap check |
| PlanStore.CapHoldsIffNoOverlap | src/adapters/node/blueprint-workbench.ts:334-343 | the cap of 16 holds on every run exactly when previews do not overlap; 15 + k is reached for every k |
| PlanStore.ByteCapHoldsIff | src/adapters/node/blueprint-workbench.ts:334-355 | the cap of 16 MiB holds on every run with k previews in flight, none above a size, exactly when k is 1 or 15 + k previews of that size fit |
| ApplyPipeline.Apply | src/adapters/node/blueprint-workbench.ts:461-670 | every published outcome is well shaped, with installed naming exactly the succeeded packages row by row, and evolves from the one before; the last one is the closed form of the run, and the number of publications is exact |
| ApplyPipeline.CreateSpace | src/adapters/node/blueprint-workbench.ts:475-549 | the part up to the space publishes once and ends with the space or with the closed form of the failure |
| ApplyPipeline.InstallPackages | src/adapters/node/blueprint-workbench.ts:551-604 | packages succeed up to the first failure, which names its row; after every step installed has the names and versions of exactly the succeeded rows, in order |
| ApplyPipeline.InstallPackage | src/adapters/node/blueprint-workbench.ts:559-573 | an installed identity is the prepared archive's and was found in the space; every other answer is an error |
| ApplyPipeline.InstallError | src/adapters/node/blueprint-package.ts:150-156 | without an error the archive names exactly the declared package and version |
| ApplyPipeline.WritePresets | src/adapters/node/blueprint-workbench.ts:606-666 | the writes run in order up to the first failure and the stage ends with that failure or with all writes done |
| ApplyPipeline.PackagesFail | src/adapters/node/blueprint-workbench.ts:585-604 | the failing step leaves a succeeded prefix, at most one failed row and rows that did not run |
| ApplyPipeline.ProvenanceThenEnd | src/adapters/node/blueprint-workbench.ts:644-651 | presets succeed only with patch, settings and provenance written, and model exactly when one is bound |
| ApplyPipeline.StagesBySteps | src/adapters/node/blueprint-workbench.ts:461-670 | of all steps in their one order the first that fails decides which stage failed and why, what had succeeded and what did not run |
| ApplyPipeline.RowsBySteps | src/adapters/node/blueprint-workbench.ts:551-604 | the same for every package row |
| ApplyPipeline.InstalledBySteps | src/adapters/node/blueprint-workbench.ts:569-576 | installed is the archives of exactly the packages before the first failing step |
| ApplyPipeline.WritesBySteps | src/adapters/node/blueprint-workbench.ts:606-666 | the same for every write, the model's only where a model is bound |
| ApplyPipeline.CountBySteps | src/adapters/node/blueprint-workbench.ts:461-670 | the number of publications, by the place of the first failing step |
| ApplyPipeline.SucceededDidInstall | src/adapters/node/blueprint-workbench.ts:559-575 | no publication shows a succeeded row whose archive is another package's, whose installation failed or that was not found in the space |
| WaitForOldGone.Wait | src/adapters/node/component-handoff.ts:593-620 | the wait ends at the first look that stops it, within as many looks as milliseconds remain, and normally only on a look that is disconnected and dead |
| WaitForOldGone.NormalReturnMeansGone | src/adapters/node/component-handoff.ts:593-620 | with sound answers a normal return means the previous owner is gone for good |
| Handoff.NothingMovesWhileOldLives | src/adapters/node/component-handoff.ts:495-525 | in no reachable state does the new supervisor start or the launcher select while the previous owner is alive or connected, nor does anybody move the pointer while it is alive if no cold start was left over |
| Handoff.QuietIffNoneLeftOver | src/adapters/node/component-selection.ts:107-141 | no step of any run moves the pointer while the previous owner lives exactly when no cold start that saw the Home free was left over |
| Handoff.LeftOverMovesPointer | src/adapters/node/component-selection.ts:107-141 | the failing run: a left over cold start writes the pointer at once, with the previous owner alive |
| Handoff.ReceiptOrder | src/adapters/node/component-handoff.ts:404-442 | the receipts are the first of the five phases in order, followed by failed only when accepted was not recorded |
| Handoff.TokenAfterAuthorization | src/adapters/node/component-handoff.ts:531-546 | the token is sent only to the spawned process that named itself ready, after its authorization was recorded |
| Handoff.AcceptedAgrees | src/adapters/node/component-handoff.ts:720-741 | accepted implies that the ready and the accepted identity are one, the spawned process, with the previous owner gone |
| Handoff.AcceptedPointerExact | src/adapters/node/component-handoff.ts:547-553 | after accepted the pointer holds the commit digest, and keeps it until the new owner lets the Home go, exactly when it is the committed one now, the owner has not let go and no left over cold start may still write; without a left over cold start exactly when the owner has not let go |
| Handoff.AcceptedMayFindPointerMoved | src/adapters/node/component-handoff.ts:547-553 | a run in which the acceptance is recorded after the owner has let go and the pointer was moved |
| Handoff.FailsClosed | src/adapters/node/component-selection.ts:184-203 | without the token sent the Home stays this handoff's, nobody new may write the pointer, and while the previous owner lives nothing was started; without a left over cold start nothing was moved either |
| Handoff.ReachAccepted | src/adapters/node/component-handoff.ts:465-554 | a sound commit can be carried through to the acceptance |
| Handoff.UnsoundIsRefused | src/adapters/node/component-handoff.ts:486-494 | with an unconfirmed stop, another token or another owner named, on every run nothing is selected, started or sent, and only waiting and failed are recorded |
| Handoff.CarriedThroughIffSound | src/adapters/node/component-handoff.ts:465-554 | some run selects, starts the supervisor, sends the token, records the acceptance, and moves the pointer, each exactly when the commit is sound |
| Handoff.FailureIsRecorded | src/adapters/node/component-handoff.ts:404-442 | from wherever the launcher still runs it may fail, and then only a failed receipt is added |
| StopService.StopDevelopmentService | src/adapters/node/development-refresh.ts:89-120 | at most one shutdown request, only for the checked idle service; a normal return exactly when this request's own job is seen succeeded with the Home free and the owner dead before the deadline |
| StopService.PollExactly | src/adapters/node/development-refresh.ts:100-118 | how a poll is read, by its fields: done and gone, this job and not over, or given up |
| DevelopmentRefresh.Home.Commit | src/adapters/node/development-refresh.ts:305-326 | the step that throws fixes exactly which disk states are written, in order, and whether the lease was let go |
| DevelopmentRefresh.Home.InstallPayload | src/adapters/node/development-refresh.ts:282-330 | the lease is taken exactly once nothing speaks against it and released exactly once, except exactly when it was not let go before the pointer and its last release throws; success is a complete commit whose Home lock was released |
| DevelopmentRefresh.Home.Refresh | src/adapters/node/development-refresh.ts:195-278 | the disk states written and the status are the functions of disk, payload, surroundings and throws that the theorems are about; exactly when the lease is taken and exactly when it stays held |
| DevelopmentRefresh.GatesExactly | src/adapters/node/development-refresh.ts:195-304 | the lease is taken exactly past every one of the gates, each named by its field, and the disk is touched exactly then with the Home lock got and the marker written |
| DevelopmentRefresh.StatusExactly | src/adapters/node/development-refresh.ts:195-278 | exactly when first install, current and updated are answered, in the fields of disk, surroundings and throws |
| DevelopmentRefresh.SelectionExactly | src/adapters/node/development-refresh.ts:305-330 | exactly when the pointer is moved, and when the lease stays held |
| DevelopmentRefresh.LengthExactly | src/adapters/node/development-refresh.ts:305-326 | each of the six writes is made exactly when nothing before it threw |
| DevelopmentRefresh.StatesInOrder | src/adapters/node/development-refresh.ts:305-326 | what each write changes: marker, plugin, bridge, pointer, and the marker away |
| DevelopmentRefresh.RefreshIsSafe | src/adapters/node/development-refresh.ts:195-330 | nothing is written after evidence was found; in every disk state without evidence the components are untouched or wholly the new payload |
| DevelopmentRefresh.StatusIsTrue | src/adapters/node/development-refresh.ts:195-278 | updated means whole and without evidence, current and first install mean unchanged, and a throw leaves evidence, or the disk as it was, or the whole new payload |
| DevelopmentRefresh.ThrownYetChanged | src/adapters/node/home-operation-lock.ts:162-180 | a refresh that throws without leaving evidence changed the components exactly when its commit was complete and the release of the Home lock or of the cold start lock threw |
| DevelopmentRefresh.ReleaseThrowsAfterCommit | src/adapters/node/home-operation-lock.ts:359-386 | the failing run: the Home lock cannot be released after a complete commit, so the refresh throws, no evidence is left and everything is new |
| DevelopmentRefresh.HeldLeaseMovesNothing | src/adapters/node/development-refresh.ts:313-330 | a refresh that ends with the lease held throws and has not moved the pointer |
| DevelopmentRefresh.LeaseLeftHeld | src/adapters/node/development-refresh.ts:313-330 | the failing run: both releases of the lease throw, so it stays held, with the evidence and both packages in place |
| DevelopmentRefresh.CrashKeepsSafe | src/adapters/node/development-refresh.ts:282-330 | a refresh cut short after any of its disk states leaves a run that is as safe as the whole one |
| DevelopmentRefresh.NoEvidenceNoMixture | src/adapters/node/development-refresh.ts:63-75 | over any sequence of refreshes, each the trace of its own inputs and throws and cut short anywhere, without evidence plugin, bridge and pointer are untouched since the last commit, or the running refresh has committed and they are wholly its payload's; the last commit left one payload whole, and before any there is the start |
| DevelopmentRefresh.EvidenceFreezes | src/adapters/node/development-refresh.ts:195-203 | over any such sequence, once a refresh has left evidence every later one leaves the disk as it is |
| ServiceClient.ClassifyAttach | src/adapters/desktop/service-client.ts:343-354 | missing is answered only for a result that says so and is neither blocked nor stale, endpoint only with an endpoint object |
| ServiceClient.DesktopServiceClient.Enqueue | src/adapters/desktop/service-client.ts:191-210 | queue and the start of a run: which flags, generation and run the call leaves |
| ServiceClient.DesktopServiceClient.StartNow | src/adapters/desktop/service-client.ts:136-147 | start joins, refuses blank paths or queues with its paths |
| ServiceClient.DesktopServiceClient.ResumeAttached | src/adapters/desktop/service-client.ts:221-245 | the step after attach: nothing when stale, else connected, unavailable, stopped or the bootstrap call |
| ServiceClient.DesktopServiceClient.Become | src/adapters/desktop/service-client.ts:275-307 | the three terminal transitions act only for the live generation |
| ServiceClient.StepKeeps | src/adapters/desktop/service-client.ts:128-311 | every step keeps: connected iff endpoint and client, one run at most, connecting iff that run is in progress and live |
| ServiceClient.StaleRunChangesNothing | src/adapters/desktop/service-client.ts:309-311 | a run whose generation is no longer live changes nothing but its own entry |
| ServiceClient.ReachableStates | src/adapters/desktop/service-client.ts:128-210 | in every interleaving: connected exactly with endpoint and client, at most one run, at most one bootstrap per run |
| ServiceClient.DisposedStaysIdle | src/adapters/desktop/service-client.ts:180-189 | after dispose the state stays idle and bare and nothing is bootstrapped any more |
| ServiceClient.ConnectedUntilDisposed | src/adapters/desktop/service-client.ts:128-147 | once connected only dispose ends the connection, and the endpoint never changes |
| ServiceClient.EntryCheckIsDisposal | src/adapters/desktop/service-client.ts:156-178 | the check after the await of entryUrl refuses exactly the disposed client |
| ServiceClient.BootstrapHasCause | src/adapters/desktop/service-client.ts:240-265 | every bootstrap follows an attach answer classified as missing and an earlier start with exactly its paths |
| ServiceClient.ConnectOnlyNeverBootstraps | src/adapters/desktop/service-client.ts:132-134 | without a start that supplied both paths nothing is ever bootstrapped |
| ServiceClient.BootstrapsIffOfferStands | src/adapters/desktop/service-client.ts:240-245 | a live run bootstraps exactly when attach answers missing and an offer stands, with the first standing offer |
| ServiceClient.LateOfferIsKept | src/adapters/desktop/service-client.ts:205-208 | a start between the end of a run and its finally starts nothing, and a later connect bootstraps with it |
| ServiceClient.AttachLeads | src/adapters/desktop/service-client.ts:221-245 | on every run, by the fields of the answer: a live attach connects with exactly its endpoint, is stopped, bootstraps with the first offer, or is unavailable |
| ServiceClient.RunEndLeads | src/adapters/desktop/service-client.ts:246-272 | a live bootstrap connects with its endpoint or is unavailable; a throw is unavailable |
| ServiceClient.CallLeads | src/adapters/desktop/service-client.ts:132-147 | what connect and start do in every reachable state |
| ServiceClient.DisposeLeads | src/adapters/desktop/service-client.ts:180-189 | dispose empties the client and begins another generation; what is in flight goes on |
| ServiceClient.FinallyLeads | src/adapters/desktop/service-client.ts:205-208 | after its finally nothing is in flight and all else stays |
| ServiceClient.EntryOpensIffConnected | src/adapters/desktop/service-client.ts:156-162 | a link can be asked for exactly while connected, at that connection's endpoint |
| DesktopStartup.Startup.Decide | src/main/desktop-startup.ts:23-43 | one look decides, waits or starts, consuming the decision before the call |
| DesktopStartup.StartedExactlyWhen | src/main/desktop-startup.ts:15-56 | connect is called once iff open ever was; start once iff the first decisive look saw stopped and ready, and never otherwise |
| DesktopStartup.StartOnlyWhenAbsent | src/main/desktop-startup.ts:23-43 | the starting step sees stopped and ready, no earlier look saw connected or unavailable, and no later step starts again |
| DesktopStartup.StartedIff | src/main/desktop-startup.ts:23-43 | started exactly once if some look saw stopped and ready before any saw connected or unavailable, else never; connected exactly once if opened |
| StopSpaces.OwnedOrdinaryStopTargets | src/main/desktop-shell-protocol.ts:58-74 | the targets are the ids of the owned, ordinary, active rows in row order, and the call throws exactly on an unusable state |
| StopSpaces.TargetsReadIff | src/main/desktop-shell-protocol.ts:58-74 | the call works on a first state exactly if it is of protocol 2, available, with two digests, a manager and rows that all have an id and a flag |
| StopSpaces.TargetsAre | src/main/desktop-shell-protocol.ts:58-74 | an id is a target exactly when it is neither web nor the manager's and a managed row with it is running or starting |
| StopSpaces.WaitForJob | src/main/desktop-shell-protocol.ts:219-237 | the polling loop follows the function the theorems use, for its answer and its calls |
| StopSpaces.WaitFits | src/main/desktop-shell-protocol.ts:219-237 | a wait only polls, each time for the job last answered; it returns the terminal job of the last answer, or a disconnect with the job that was asked for |
| StopSpaces.StopOne | src/main/desktop-shell-protocol.ts:105-169 | one target: which calls are made on each branch and how it ends; the second epoch comparison never acts |
| StopSpaces.OneFits | src/main/desktop-shell-protocol.ts:105-169 | one target: at most one submission, licensed by the state and the preview right before it, and an end that the calls account for |
| StopSpaces.StopOwnedSpaces | src/main/desktop-shell-protocol.ts:95-171 | the loop follows the function of the server's replies that the theorems use, for its result and every call |
| StopSpaces.StopRunFits | src/main/desktop-shell-protocol.ts:95-171 | against any server: every submission is licensed, at most one per target, every stopped space was seen stopped or its job succeeded, and stopped, failed, remaining, message and job fit on every return, and the call throws exactly when its last call cannot be used |
| StopSpaces.RunSubmitsRightly | src/main/desktop-shell-protocol.ts:105-151 | in every run each submission follows its preview and its state, all of the first epoch and one revision, by their own fields, and that state's first row with the id is owned, ordinary and active |
| StopSpaces.StateEnds | src/main/desktop-shell-protocol.ts:107-144 | which state ends a round and how, by its fields and rows |
| StopSpaces.AnswerEnds | src/main/desktop-shell-protocol.ts:145-166 | which preview or job answer ends a round and how |
| StopSpaces.WaitsToHorizon | src/main/desktop-shell-protocol.ts:219-237 | the call waits on only for a server that has stopped answering polls |
| StopSpaces.SplitIffDistinct | src/main/desktop-shell-protocol.ts:105-106 | stopped and remaining make up the targets at every place of the list exactly when no target is listed twice |
| StopSpaces.ReturnsSplitIffDistinct | src/main/desktop-shell-protocol.ts:95-171 | from a given first state, every server makes the call return a split of the targets exactly when that state lists no target twice |
| StopSpaces.TargetsDistinctIff | src/main/desktop-shell-protocol.ts:58-74 | no target is listed twice exactly when no two owned, ordinary, active rows have one id |
| StopSpaces.DistinctRunsSplit | src/main/desktop-shell-protocol.ts:95-171 | with distinct targets stopped and remaining make up the targets in everything the call returns, against any server |
| StopSpaces.SplitLosesATarget | src/main/desktop-shell-protocol.ts:95-171 | the failing run, for every first state that repeats a target: the server shows the targets stopped up to the second and then lists nothing, and the call returns that one as failed and not as remaining |
| StopSpaces.SubmittedOnce | src/main/desktop-shell-protocol.ts:95-171 | when the first state lists no target twice, no run submits a space twice |
| Dashboard.FindSlot | packages/dashboard/src/model.ts:110-115 | the nested loops find the first free slot by row and column, or none exists |
| Dashboard.BlockedIsOverlap | packages/dashboard/src/model.ts:110-115 | a place is blocked exactly when the card pinned there would overlap one on the board |
| Dashboard.OverlapIsSharedCell | packages/dashboard/src/model.ts:110-115 | two cards overlap exactly when they share a cell |
| Dashboard.SlotIffFits | packages/dashboard/src/model.ts:110-115 | the slots searched are exactly the places in the two columns where the card stays on the board |
| Dashboard.PinCommand | packages/dashboard/src/model.ts:106-119 | exactly when each fault is raised, and otherwise one card added in the first free slot of an otherwise unchanged board |
| Dashboard.PinnedOnce | packages/dashboard/src/model.ts:110-117 | the board after a pin is determined by the board before it |
| Dashboard.CommandsAreSteps | packages/dashboard/src/model.ts:106-123 | a pin and an unpin keep everything else of the board; unpinning fails exactly without such a card |
| Dashboard.PinAccepted | packages/dashboard/src/model.ts:113 | a pin on a board the validator accepts is accepted exactly when its id is new |
| Dashboard.RoomWithinWeight | packages/dashboard/src/model.ts:110-116 | if the heights plus one of all cards sum to at most 9998 a slot is found no further down than that sum |
| Dashboard.RunTidy | packages/dashboard/src/model.ts:106-123 | along every run of pins and unpins from an empty board the cards are pairwise disjoint and on the board |
| Dashboard.RunHasRoom | packages/dashboard/src/model.ts:106-123 | along such a run a pin is never refused for want of room, and lies within three rows per card |
| Dashboard.Without | packages/dashboard/src/model.ts:120-123 | unpinning keeps exactly the cards with another id |
| Dashboard.WithoutConcat | packages/dashboard/src/model.ts:120-123 | unpinning goes card by card and keeps their order |
| Dashboard.ReadItems | packages/dashboard/src/model.ts:94-104 | success means one view for each distinct reference in order from one epoch; all batches but the last are full |
| Dashboard.RefsInOrder | packages/dashboard/src/model.ts:94-104 | each reference once, in the order of first appearance |
| StableSort.SortIsStable | src/adapters/node/component-payload.ts:449-450 | equivalent elements come out of the sort in the order they went in |
| StableSort.OrderForgottenIff | src/adapters/node/component-payload.ts:449-450 | the sort forgets the order of its input exactly when no two different elements compare as equal |
| StableValue.StableDecides | src/adapters/node/component-payload.ts:588-596 | two values have one canonical form exactly when they are the same up to key order at every depth |
| StableValue.StableIsSorted | src/adapters/node/component-payload.ts:588-596 | the canonical form has the keys of every object in order, at every depth |
| StableValue.StableIsSame | src/adapters/node/component-payload.ts:588-596 | and is the same value |
| PayloadManifest.NormalizeTwice | src/adapters/node/component-payload.ts:438-461 | normalizing is idempotent |
| PayloadManifest.NormalExactly | src/adapters/node/component-payload.ts:438-461 | what the normal form keeps, fixes and sorts |
| PayloadManifest.OrderForgottenExactly | src/adapters/node/component-payload.ts:438-461 | every reordering of the files has the same normal form exactly when the collation tells the files apart |
| PayloadManifest.DigestTextDecides | src/adapters/node/component-payload.ts:249-253 | the text under the digest is the same exactly when the normal forms are |
| PayloadManifest.DigestOfNormal | src/adapters/node/component-payload.ts:249-253 | a manifest and its normal form have the same text under the digest |
| PayloadManifest.DigestForgetsOrderExactly | src/adapters/node/component-payload.ts:249-253 | reordering the files of each component keeps the text under the digest for every reordering exactly when the collation tells the files of each component apart |
| PayloadManifest.DigestTextParts | src/adapters/node/component-payload.ts:249-253 | the text is the prefix, the canonical JSON of the normal form, and one line of path and hash for each declared file, in path order |
| PayloadManifest.ManifestReads | src/adapters/node/component-payload.ts:26-36 | what the manifest's JSON reads under each of the source's names |
| PayloadManifest.ComponentReads | src/adapters/node/component-payload.ts:26-36 | the same of a component |
| PayloadManifest.SourceKeysGood | src/adapters/node/component-payload.ts:26-36 | the member and component names satisfy what the digest theorem needs |
| PayloadCopy.SourceTableGood | src/adapters/node/component-payload.ts:40-94 | every identity file is among the required files of some component |
| PayloadCopy.AssertDeclaredFiles | src/adapters/node/component-payload.ts:355-388 | accepted exactly when identities, required files, sizes and hashes fit and no path or real file is declared twice |
| PayloadCopy.Validate | src/adapters/node/component-payload.ts:137-144 | validation succeeds exactly for a well shaped manifest whose normal form is declared on disk |
| PayloadCopy.ShapeExactly | src/adapters/node/component-payload.ts:266-353 | a manifest has the right shape exactly by its own members and those of its table rows |
| PayloadCopy.DeclaredExactly | src/adapters/node/component-payload.ts:355-388 | declared means: every identity on disk, every required file and entry listed, every file there at its size and hash, nothing declared twice |
| PayloadCopy.CopyPayload | src/adapters/node/component-payload.ts:183-243 | exactly when a copy returns; it then revalidates with the source's digest and holds the declared files only; one cut short never validates |

## Left out

- JsonPointer.SetAtReads: trees are values, so writing in place, aliasing and the special key `__proto__` are not captured; an assignment past the end of an array counts as a failed write.
- LocalPaths.VisitSound: the credential and expression searches that use the same walk are not modelled.
- Provenance.LocatedInsideEntry: the restore and remap steps around the search are not modelled.
- Utf8.DecodeUndoesEncode: a text is a sequence of Unicode scalar values; lone surrogates, which the encoder replaces, are outside.
- ShareCodec.ShareRoundTrip: JSON text and DEFLATE are assumed inverse pairs; blueprint parsing rules are not modelled.
- PlanStore.StoreBounds: identifiers drawn by previews are assumed to be new; the size of the JSON text that is counted is an input.
- ApplyPipeline.Apply: what the steps do to disk, host versions, redaction and cloning of outcomes are not modelled; each step's answer is an input. Package names and versions are taken as trimmed; the blueprint parser lets no others through.
- Handoff.NothingMovesWhileOldLives: message parsing, argument checks, staged payload reads and time are steps that may fail at any moment; a dead answer is taken as true.
- Handoff.FailsClosed: process identifiers are not reused; a cold start saw a free Home before it writes the pointer, during the handoff or before it.
- DevelopmentRefresh.Home.Refresh: aligning the recorded CLI, packing, and the network attach are inputs; the lease is taken as released once its release returned. A lock left in place by a release that threw is an input of the next refresh.
- ServiceClient.ReachableStates: reason texts and their redaction, stage callbacks and the constructor's checks are not modelled.
- ServiceClient.EntryCheckIsDisposal: parsing of the minted link is not modelled.
- StopSpaces.WaitForJob: a server that never finishes a job keeps the loop going; the model answers that it is still waiting after a number of calls that may be any.
- StopSpaces.OwnedOrdinaryStopTargets: values of wrong types other than a missing id, flag, manager or row list are not distinguished.
- Dashboard.PinCommand: the checks of the reference and of the new id are one input.
- Dashboard.ReadItems: the overview, board and catalog queries and the checks of single views are not modelled; a view is identified by its reference.
- PayloadManifest.DigestTextDecides: SHA-256 is a parameter, and JSON text is assumed to tell manifests apart.
- PayloadCopy.AssertDeclaredFiles: links, escapes from the package and changes during reading count as a file that cannot be read; the real path of a file is a function of its declared path.
- PayloadCopy.CopyPayload: the checks of the destination's place are one input.
- Staging of payloads, manifest writing, waiting helpers for single child messages, and the shutdown of the service by the shell: a single branch or a plain promise each.
- User interface, HTTP, child processes, archives, YAML, file system and platform details.
