# ZVM-Extra: a verified model

ZVM-Extra keeps "pinned" desired state (a VNC password, a listen address and port, a TPM, USB and PCI
devices) applied to virtual machine definitions that another program, ZVM, keeps rewriting. It never parses
and re-serialises the domain XML: it edits the text with index searches, slices and one regular expression.
This project models that code in Dafny and proves what it promises, and where it does not keep a promise,
exactly when.

`dafny verify dfyconfig.toml` checks everything.

## How the model is built

Documents are `seq<char>`. The searches of Go's `strings` package are functions with their defining
properties (`GoStrings.dfy`), and the loops of the source are methods proved against the functions the
theorems are about.

- **Attribute lists** (`AttrList`, `AttrLaws`, `AttrQuotes`). An opening tag is also seen as a head, a list of
  single-quoted attributes and a tail. `tagAttr` and `tagDropAttr` are proved to be `ReadFirst` and
  `DropFirst` on *every* such list, with no condition on the values. Reading is then XML lookup exactly when
  no attribute shadows the one asked for, and dropping is XML deletion exactly when none swallows its
  neighbour. `AttrQuotes` carries both over to tags in double quotes.
- **Console documents** (`VncXml`, `VncMarker`, `VncDoc`, `VncText`, `VncLaws`, `VncTheorems`, `VncReads`,
  `VncZvm`, `Password`, `PasswordTraps`). Write-then-read, last-writer-wins and the frame are proved on any text in which
  `vncOpenTag` finds a console, with either quote and any spacing (`VncText`). For what depends on the
  attributes a document is also seen as text, the tag, and text, with single-quoted attributes: there the
  two setters are proved equal, as text, to structured edits. `VncZvm` states what readers and setters make of
  the console ZVM itself writes, in literal text.
- **TPM documents** (`TpmXml`, `TpmLaws`, `TpmReader`, `TpmRemoval`, `Pages`). The regular expression is a
  hand-written leftmost matcher. `TpmReader` says what is read of a device configured by hand, and what removal
  takes out. `Pages` joins the console view with what follows it, so that adding a TPM commutes with
  the console edits.
- **The reconcilers** (`Client`, `Protocol`, `TextProtocol`, `Unpin`, `UnpinConfig`, `VncStore`, `VncPass`,
  `TpmStore`, `DeviceStore`). Each loop body is a class method proved against a pass function. The loops
  together are a step machine: check, dump, define, attach, in any interleaving, from any dumps in flight.
  A repair can be overwritten by a define of an older dump (`RepairsCanBeLost`), and a password may hide
  the address from the check; the system converges all the same. `TextProtocol` runs the same machine on
  document text and proves that every step refines an item step. `Unpin` and `UnpinConfig` add the
  handlers: the first says what passes set out to repair after an unpin, the second what any define of the
  whole document carries along.
- **The console handler** (`VncHandler`, `ConsoleTrap`, `Exposure`): POST and DELETE as transitions over the
  store and the configs, with runs that mix them with reconciler passes and outside rewrites, each request
  and each pass running alone. `Exposure` takes them apart into checks, dumps and defines that interleave
  with each other and with ZVM.
- **Snapshots** (`Schedule`, `Retention`, `Prune`, `SnapTable`, `Overlay`), **boot** (`Autostart`,
  `BootProtocol`) and **PCI** (`PciAddress`, `Lspci`).

## What the model shows about the code

- The substring searches go wrong for some accepted passwords. A password ending in ` listen=` or ` port=`
  is corrupted by the next listen edit, and only such a password (`PasswordSurvivesIff`). It swallows the
  attribute behind it, and on a tag that begins with `type='vnc'` the console is lost
  (`TrapKeepsConsoleIff`, `TypeFirstIsLost`). The comment on the POST handler, that every path to `0.0.0.0`
  ends with a password on the console, holds for every other accepted password as long as each request and
  each pass runs alone (`NeverExposed`). For one of these it depends on the tag: `PostSafeIff` says exactly
  when the document defined for `0.0.0.0` still reads as protected, `PassProtectedIff` the same of a pass, and
  `TrapIsNotSafe` is a console where it does not.
- A request makes its two defines one after the other. When ZVM writes the console again without a password
  in between, the second define puts it on `0.0.0.0` (`OverwriteOpens`). Without ZVM's help and without a
  DELETE, requests and passes can do so in some interleaving exactly when the config has a console without a
  password, a define under way leaves one, or a clearing is still to come (`CanOpenIff`).
- The key `port=` also ends the name `autoport`: the reader misses the port exactly when an `autoport`
  attribute with another number stands in front of it (`PortMeantIff`, `PortIsHidden`). The comment on `tagAttr`
  says that it returns nothing when the attribute is absent; `ReadTextIff` says exactly when that is so.
- A password ending in `listen=` or `port=` hides the address or the port from the readers until the next
  listen edit (`PasswordReadsIff`).
- `Reconcile` restores the presence of a password, not its equality with the pin.
- A password-only POST stores an empty `Listen` over a pinned one, so the address is no longer repaired
  (`NoAddressUnpins`).
- A `<listen ...>` child that is not self-closing has only its opening tag replaced (`ChildContentsStay`).
- Handlers unpin "first so the reconciler will not immediately re-add it". A pass that copied its store
  before the unpin may still repair the item, and no later pass sets out to (`UnpinHolds`,
  `OlderPassStillRepairs`). But every define writes a whole older dump, so a later pass of the other
  rewriting loop can bring the item back for good (`LaterPassReturns`). An unpinned item comes back unasked,
  in some interleaving, exactly from the states in which it is still pinned, in the config, copied by a
  pass, in a dump in flight or carried by a request (`CanReturnIff`).
- The device stores are keyed by the text of the address while the readers compare numbers: in a device pass
  running alone an unpinned, detached device comes back exactly when another pin of that VM names it with
  other capitals (`UnpinHoldsIff`, `UnpinnedComesBack`).
- Snapshot intervals above 2562047 hours overflow the nanosecond arithmetic and lose their spacing
  (`SpacingIff`).
- A scheduled snapshot is pruned at once exactly when at least Keep hand-made `auto-` names sort behind it
  (`ScheduledHolds`).
- Two accepted snapshot names can share their overlay files (`StemsCollide`, `SameFileIff`).
- Removing the TPM can leave one behind, but only where one tag opens inside another (`RemovalLeavesNone`,
  `OpenTagsRejoin`).

## Model

| member | source | states |
|---|---|---|
| GoStrings.AtoiItoa | internal/virsh/vnc.go:120-122 | a port printed into the tag is parsed back as the same number |
| GoStrings.AtoiSigned | internal/virsh/vnc.go:120-122 | a sign is read, and a number beyond 64 bits is none |
| AttrList.TagAttr | internal/virsh/vnc.go:56-71 | the loop over the two quote characters with its early return computes AttrText |
| AttrList.TagDropAttr | internal/virsh/vnc.go:74-89 | the loop that splices the attribute out computes DropText |
| AttrList.ReadRefines | internal/virsh/vnc.go:56-71 | on every rendered tag reading is ReadFirst: the first name that ends in the key wins, unless an earlier value ends in the key and `=` |
| AttrList.DropRefines | internal/virsh/vnc.go:74-89 | on every rendered tag dropping is DropFirst: the attribute goes, unless an earlier value ending in the key swallows its neighbour |
| AttrLaws.DropIsRemoveIff | internal/virsh/vnc.go:74-89 | structured dropping is XML deletion if and only if no attribute swallows its neighbour |
| AttrLaws.DropTextIff | internal/virsh/vnc.go:74-89 | the text edit deletes exactly that attribute if and only if no attribute swallows its neighbour |
| AttrLaws.ReadIsLookupIff | internal/virsh/vnc.go:56-71 | structured reading is XML lookup if and only if no attribute shadows the one asked for: another one, whose name or value ends in the key, reached first and read as something else |
| AttrLaws.ReadTextIff | internal/virsh/vnc.go:54-71 | tagAttr returns the value of that attribute, or nothing when it is absent, if and only if no attribute shadows it |
| AttrLaws.BodyInjective | internal/virsh/vnc.go:74-89 | equal rendered text means equal attributes, so the text equations lose nothing |
| AttrQuotes.ReadDouble | internal/virsh/vnc.go:56-71 | on every tag in double quotes reading is ReadFirst as well |
| AttrQuotes.DropDouble | internal/virsh/vnc.go:74-89 | on every tag in double quotes dropping is DropFirst as well |
| AttrQuotes.MarkerDouble | internal/virsh/vnc.go:47-49 | the marker test holds of a tag in double quotes if and only if some attribute whose name ends in `type` is `vnc` |
| VncXml.TagFrom | internal/virsh/vnc.go:33-52 | the span found lies inside the text at or after the offset |
| VncXml.OpenTag | internal/virsh/vnc.go:33-52 | what is found starts with `<graphics`, has its only `>` at the end and carries the VNC marker |
| VncXml.VncOpenTag | internal/virsh/vnc.go:33-52 | the loop past non-VNC tags terminates and finds the same tag, with its text and offsets, or reports none |
| VncXml.DropKeepsHead | internal/virsh/vnc.go:167-174 | dropping an attribute never touches the head, so slicing it off cannot fail |
| VncXml.ChildSpan | internal/virsh/vnc.go:128-146 | the child lies inside the text and starts with `<listen` |
| VncMarker.MarkerIff | internal/virsh/vnc.go:47-49 | the marker test on a rendered tag holds if and only if some attribute whose name ends in `type` is `vnc` |
| VncMarker.TagLocal | internal/virsh/vnc.go:33-52 | the search depends only on the text up to the end of the tag it finds, past any number of other tags |
| VncMarker.OpenTagLocal | internal/virsh/vnc.go:176-182 | after rewriting the tag the search finds the new tag at the same start offset |
| VncDoc.ListenTagRefines | internal/virsh/vnc.go:163-173 | the rewritten tag is the new listen, port and autoport attributes in front of what the three drops leave |
| VncDoc.PasswordTagRefines | internal/virsh/vnc.go:204-208 | the rewritten tag is the new password in front of what the drop leaves |
| VncDoc.ChildAt | internal/virsh/vnc.go:132-145 | the child is the first `<listen` after the tag, inside the element, up to its first `>` |
| VncDoc.ChildIsFirst | internal/virsh/vnc.go:187-193 | the first occurrence of the child's text is the child, so nothing else is replaced |
| VncDoc.RelistenChild | internal/virsh/vnc.go:183-193 | after the replacement the first child is the replacement, at the same offset |
| VncDoc.SelfClosingTail | internal/virsh/vnc.go:129-131 | the trimmed-suffix test says whether the tag's tail ends in `/>`, whatever the attributes |
| VncDoc.FirstIsValid | internal/virsh/vnc.go:33-52 | a marked tag with no `<graphics` before it is what the search finds |
| VncDoc.SetPasswordRefines | internal/virsh/vnc.go:199-210 | on every console document the setter yields exactly the document with the new password list, all other text unchanged |
| VncDoc.SetListenRefines | internal/virsh/vnc.go:157-194 | on every console document the setter yields exactly the document with the new listen list and child, all other text unchanged |
| VncLaws.StrippedClean | internal/virsh/vnc.go:163-165 | on clean tags the three drops delete exactly three attributes and leave the password readable |
| VncLaws.ListenKeeps | internal/virsh/vnc.go:157-174 | a listen edit keeps the tag clean, marked and its password as it was |
| VncLaws.PasswordKeeps | internal/virsh/vnc.go:199-209 | a password edit keeps the tag clean and marked, reads back, and leaves the other attributes readable when no password hides them |
| VncTheorems.ReaderRefines | internal/virsh/vnc.go:97-124 | the readers return the attribute values, the child's address before the attribute's |
| VncReads.CleanReads | internal/virsh/vnc.go:97-124 | on a clean console the reader finds a password if and only if it has one; when no password hides them, address and automatic choice are those of the attributes of these names |
| VncReads.PortMeantIff | internal/virsh/vnc.go:112-124 | the reader returns the port the attributes mean if and only if no `autoport` with another number stands in front of it |
| VncReads.PortIsHidden | internal/virsh/vnc.go:112-124 | a valid console with port 5901 of which the reader reports port 0 |
| VncZvm.ZvmReads | internal/virsh/vnc.go:97-124 | the console ZVM writes is read as open to every address, without a password and on an automatic port |
| VncZvm.ZvmPassword | internal/virsh/vnc.go:199-210 | in that console, as literal text, any password becomes the first attribute and nothing else changes |
| VncZvm.ZvmListen | internal/virsh/vnc.go:157-194 | in that console, as literal text, any address and port replace what ZVM wrote in tag and child and nothing else |
| VncText.Readers | internal/virsh/vnc.go:97-124 | on any text with a console the readers return what its tag holds, the child's address before the attribute's; the port is the number of its `port`, automatic unless its `autoport` is `no` |
| VncText.WriteThenRead | internal/virsh/vnc.go:157-194 | on any text with a console whose new tag is still one, after the listen edit the readers return that address and `(port, false)` or `(0, true)`, wherever the address is held |
| VncText.PasswordThenRead | internal/virsh/vnc.go:199-210 | on any such text a password reads back from the tag the search finds |
| VncText.SameStartIff | internal/virsh/vnc.go:33-52 | whatever is put in a tag's place, the search stops there if and only if it is a VNC tag |
| VncText.ListenFrame | internal/virsh/vnc.go:157-194 | on any text the listen edit changes the tag and the child only, and the new tag is found at the same offset |
| VncText.PasswordFrame | internal/virsh/vnc.go:199-210 | on any text the password edit changes the tag only, and the new tag is found at the same offset if and only if it is a VNC tag |
| VncText.ListenTagReads | internal/virsh/vnc.go:163-173 | the new tag reads as the address written, as that port and `autoport` `no`, or as `autoport` `yes`, whatever the old one was |
| VncText.ListenMarker | internal/virsh/vnc.go:163-173 | the listen edit leaves a VNC tag if and only if what the three drops leave is one |
| VncText.ListenTagTwiceIff | internal/virsh/vnc.go:163-173 | on any tag a second listen edit gives what it gives without the first if and only if the first fixed a port or left none standing |
| VncText.ListenLastWinsIff | internal/virsh/vnc.go:157-194 | on any text whose tag stays a VNC tag a later listen edit overwrites an earlier one completely, as text, if and only if the earlier one fixed a port or left none standing |
| VncText.PasswordLastWinsIff | internal/virsh/vnc.go:199-210 | on any text whose tag stays a VNC tag a later password edit overwrites an earlier one completely, as text, if and only if the earlier one set a password or cleared the last one |
| VncTheorems.CleanStays | internal/virsh/vnc.go:157-194 | on clean documents the conditions of these text theorems hold |
| VncTheorems.EditsRead | internal/virsh/vnc.go:157-210 | each edit reads back and leaves the other's value as the readers saw it |
| VncTheorems.EditsCommute | internal/virsh/vnc.go:157-210 | the two edits commute up to attribute order and read the same unless the password hides the others |
| Password.ValidIsCleanIff | internal/vnc/vnc.go:16-30 | an accepted password swallows nothing if and only if it does not end in ` listen=` or ` port=` |
| Password.AfterListenTrap | internal/virsh/vnc.go:163-165 | what the drops leave of a tag whose password is ` listen=` |
| Password.AfterPortTrap | internal/virsh/vnc.go:163-165 | what the drops leave of a tag whose password ends in ` port=` |
| Password.PasswordSurvivesIff | internal/virsh/vnc.go:157-174 | after a listen edit the password set before reads back if and only if it does not end in ` listen=` or ` port=` |
| PasswordTraps.PasswordReadsIff | internal/virsh/vnc.go:97-124 | after setting any accepted password, port and address read as before if and only if it does not end like them or there is nothing to hide |
| PasswordTraps.TrapKeepsConsoleIff | internal/virsh/vnc.go:163-174 | after a trapped password the listen edit leaves a VNC tag if and only if the marker is not the swallowed attribute |
| PasswordTraps.TypeFirstIsLost | internal/virsh/vnc.go:163-174 | on a tag that begins with its marker every trapped password loses the console |
| TpmXml.ElementFrom | internal/virsh/tpm.go:38 | the element found is complete, and no earlier `<tpm` opens a complete one |
| TpmXml.DeviceText | internal/virsh/tpm.go:43-45 | the literal device is a rendered element between blanks and a newline |
| TpmLaws.AddedMatch | internal/virsh/tpm.go:38-45 | the expression matches exactly the added device with the blanks before it |
| TpmLaws.AddReads | internal/virsh/tpm.go:49-89 | adding to a document without a TPM reads back as present, tpm-crb, 2.0 |
| TpmLaws.RemoveAfterAdd | internal/virsh/tpm.go:73-89 | removing after adding gives the original less exactly the blanks before the last `</devices>` |
| TpmLaws.AddRemoveFixpoint | internal/virsh/tpm.go:73-89 | once trimmed, adding and removing is the identity |
| TpmReader.InfoWithBackend | internal/virsh/tpm.go:49-67 | of any device with a backend, any attributes around, the reader returns its own model and version |
| TpmReader.InfoWithoutBackend | internal/virsh/tpm.go:49-67 | of any device without one its model and no version |
| TpmReader.InfoEmpty | internal/virsh/tpm.go:49-67 | of any empty element its model and no version |
| TpmReader.LongerName | internal/virsh/tpm.go:38 | an element whose name only begins with `tpm` is none |
| TpmReader.LeftAlone | internal/virsh/tpm.go:69-89 | a device that is there is left as it is, and so is a document without one by a removal |
| TpmReader.RemovesDevice | internal/virsh/tpm.go:84-85 | removal takes out exactly the device, however it is configured, with the blanks before and the space behind it |
| TpmRemoval.RemovalLeavesNone | internal/virsh/tpm.go:84-85 | on documents whose tags do not open inside one another, removal leaves no match |
| TpmRemoval.OpenTagsRejoin | internal/virsh/tpm.go:84-85 | a document with an open tag in front of the device where removal does leave a match |
| Pages.PasswordStaysGood | internal/virsh/vnc.go:199-210 | a password edit of a whole document keeps it well formed and its TPM state as it was |
| Pages.ListenStaysGood | internal/virsh/vnc.go:157-194 | a listen edit of a whole document keeps it well formed and its TPM state as it was |
| Pages.PlainIsGood | internal/virsh/tpm.go:73-89 | the documents of these lemmas exist: enough for one without a TPM to be well formed |
| Pages.PresentIff | internal/virsh/tpm.go:49-67 | the TPM reader says present if and only if a complete element stands before or after the console |
| Pages.TpmPage | internal/virsh/tpm.go:78-83 | adding a TPM changes only what follows the console |
| Pages.TpmCommutes | internal/virsh/tpm.go:73-89 | adding a TPM and either console edit commute exactly as text |
| Protocol.KeptGrows | internal/vnc/store.go:138-204 | no step of any loop shrinks the set of pinned items in the config and in every dump in flight, where the address counts once no password can hide it any more |
| Protocol.DefineWithoutGrowth | internal/virsh/vnc.go:313-351 | a define that adds nothing to that set still uses up its loop's pending work |
| Protocol.DefineDecreases | internal/virsh/vnc.go:313-351 | every define, from whatever state, decreases the define measure |
| Protocol.StepDecreases | internal/vnc/store.go:138-204 | every step of every loop decreases the measure |
| Protocol.RestingIff | internal/vnc/store.go:138-204 | nothing is left to do if and only if all loops are idle and every pin is in the config |
| Protocol.RunsConverge | cmd/zima-vm-extras/main.go:171-177 | no interleaving is longer than the measure, and one that cannot go on ends with every pin applied |
| Protocol.DefinesBounded | cmd/zima-vm-extras/main.go:171-177 | every interleaving performs at most 32n+31 defines for n pins |
| Protocol.RepairsCanBeLost | internal/virsh/vnc.go:313-351 | a run in which a define of an older dump removes the other loop's repair |
| TextProtocol.EditAdds | internal/virsh/vnc.go:313-351 | an edit of a document adds exactly its item as the checks see it and leaves a good document; only a password edit may also change whether they see the address |
| TextProtocol.TextStepRefines | internal/vnc/store.go:138-204 | every step on documents is a step on items |
| TextProtocol.TextRunAbstract | internal/vnc/store.go:138-204 | every run on documents is a run on items |
| TextProtocol.TextRunsConverge | cmd/zima-vm-extras/main.go:171-177 | every interleaving on document text is bounded and can only stop where the readers find the pinned password, address, port and TPM and every pinned device |
| TextProtocol.SampleRun | internal/vnc/store.go:138-204 | a document and four idle loops with pins still to apply, to which the convergence theorem applies |
| Unpin.UnpinHolds | internal/handlers/handlers.go:1491-1498 | after an unpin no pass sets out to repair the item on that VM until it is pinned again, except a pass that copied its store before the unpin |
| Unpin.OlderPassStillRepairs | internal/vnc/store.go:138-139 | the exception happens |
| UnpinConfig.GoneStays | internal/virsh/vnc.go:313-351 | an item that is unpinned and in no config, no pass's copy, no dump in flight and no request stays so through every step, until asked for |
| UnpinConfig.GoneForGood | internal/handlers/handlers.go:1577-1584 | the same over every interleaving of loops, requests and ZVM |
| UnpinConfig.CanReturnIff | internal/handlers/handlers.go:1577-1584 | an item can come back into the config unasked if and only if it is still pinned, there, copied, dumped or carried by a request; the run is constructed for each |
| UnpinConfig.ReachedCanReturnIff | internal/handlers/handlers.go:1577-1584 | so it is in every state that a run of passes, requests and ZVM reaches |
| UnpinConfig.LaterPassReturns | internal/virsh/tpm.go:125-141 | a console pass that began after the unpin defines an older dump and brings the unpinned item back for good |
| Client.Virsh.VNCListenInfo | internal/virsh/vnc.go:271-282 | address and port as the readers find them, zeros without a console |
| Client.Virsh.SetVNCPassword | internal/virsh/vnc.go:335-351 | defines exactly the edited dump of one VM, or changes nothing |
| Client.Virsh.SetVNCListen | internal/virsh/vnc.go:313-329 | defines exactly the edited dump of one VM, or changes nothing |
| VncStore.Store.All | internal/vnc/store.go:91-99 | lists every entry once, in some order |
| VncStore.Store.ReconcileEntry | internal/vnc/store.go:139-203 | one round of the loop, with its early continues, is PassOne |
| VncStore.Store.Reconcile | internal/vnc/store.go:138-204 | a pass is PassOver of some listing of the store |
| VncPass.InPlaceIff | internal/vnc/store.go:179-192 | address and port count as pinned if and only if the readers find that address and that fixed port, or libvirt's choice for port 0 |
| VncPass.RepairIs | internal/vnc/store.go:141-199 | of any text whatever: a password define if and only if a console reads without the pinned one, then a listen define if and only if address or port read as others, and exactly these edits |
| VncPass.RepairMeets | internal/vnc/store.go:141-199 | after its repair a VM reads as the pinned address, the pinned port or an automatic one, and with the password it had or the pinned one; what is not pinned stays; a second repair does nothing |
| VncPass.ListenWritesProtected | internal/vnc/store.go:160-199 | a listen define of an entry with a password writes only protected consoles |
| VncPass.PassAt | internal/vnc/store.go:138-204 | a pass does to each VM exactly what its own entry asks for and nothing to others |
| VncPass.OrderDoesNotMatter | internal/vnc/store.go:138-139 | configs and each VM's defines are the same for every map iteration order |
| VncPass.PassMeetsPins | internal/vnc/store.go:134-204 | after a pass running alone every defined, pinned VM with a console reads as the pinned address, port and password, and what is not pinned stays |
| VncPass.SecondPassIdle | internal/vnc/store.go:144-148 | a second pass, in any order, defines nothing |
| VncHandler.Server.PostVnc | internal/handlers/handlers.go:1405-1489 | the status, the store and the configs after a POST, on every branch |
| VncHandler.Server.DeleteVnc | internal/handlers/handlers.go:1491-1498 | unpins whatever becomes of the define |
| VncHandler.PostAnswers | internal/handlers/handlers.go:1405-1489 | exactly which addresses, ports and passwords are refused, that a refused or failed request pins nothing, and what an accepted one pins |
| VncHandler.PostSucceedsIff | internal/handlers/handlers.go:1453-1480 | a request that is not refused succeeds if and only if the VM is defined and has a console |
| VncHandler.PostApplies | internal/handlers/handlers.go:1453-1480 | after an accepted request the console reads as the password, address and port asked for, and no other VM is touched |
| VncHandler.PostPins | internal/handlers/handlers.go:1482-1485 | whatever console ZVM writes later, its repair reads as the address, port and password asked for |
| VncHandler.DeleteHolds | internal/handlers/handlers.go:1491-1498 | a DELETE takes the password off the console, unpins it, and no later pass touches the VM |
| VncHandler.ApplyKeepsStore | internal/handlers/handlers.go:1405-1498 | each transition keeps every entry one a caller may ask for |
| VncHandler.EntriesStayOk | internal/handlers/handlers.go:1405-1498 | in every run each entry has a valid password or none and 127.0.0.1, and port 0 or 5900 to 65535 |
| VncHandler.ApplySafe | internal/handlers/handlers.go:1415-1442 | each transition keeps every defined document for 0.0.0.0 with a password |
| VncHandler.NeverExposed | internal/handlers/handlers.go:1415-1442 | in every run of posts, deletes, passes and rewrites, each request and each pass running alone, no listen define puts a console without a password on all interfaces |
| Exposure.OpenIff | internal/virsh/vnc.go:313-329 | a define for all interfaces is of a console without a password if and only if the dump it edits is |
| Exposure.CoveredStays | internal/handlers/handlers.go:1405-1498 | every single check, dump and define keeps the config and every define under way covered, but for a DELETE and ZVM writing a console without a password |
| Exposure.CoveredForGood | internal/handlers/handlers.go:1415-1442 | so no interleaving of requests, passes and protected rewrites makes an open define from there |
| Exposure.CanOpenIff | internal/handlers/handlers.go:1415-1442 | from any other state some interleaving does, and from no covered one; the run is constructed for each case |
| Exposure.OverwriteOpens | internal/handlers/handlers.go:1471-1479 | for every accepted password, one request and ZVM writing the console again between its two defines make an open define |
| VncHandler.NoAddressUnpins | internal/handlers/handlers.go:1482-1485 | after an accepted request without an address no pass over the store, in any order and on any configs, writes an address of that VM |
| ConsoleTrap.TrapWrites | internal/virsh/vnc.go:163-173 | for a password ending in ` listen=` or ` port=`: whether the written tag is a VNC tag, and what its password reads as |
| ConsoleTrap.ReplacedPassword | internal/virsh/vnc.go:97-116 | with any tag in the console's place the reader finds a password if and only if the tag has one, or is no VNC tag and a later console has one |
| ConsoleTrap.TrapProtectedIff | internal/handlers/handlers.go:1471-1479 | after both edits with such a password the document reads as protected if and only if the marker is spared and the merged password not empty, or a later console is protected |
| ConsoleTrap.PostSafeIff | internal/handlers/handlers.go:1405-1489 | an accepted request for all interfaces defines a protected document if and only if its password is no such one or that condition holds |
| ConsoleTrap.RepairProtectedIff | internal/vnc/store.go:141-199 | for any accepted password a repaired console has a password if and only if it had one, no listen edit followed, or what that edit leaves has one |
| ConsoleTrap.PassProtectedIff | internal/vnc/store.go:138-204 | the same of each pinned VM after a pass running alone |
| ConsoleTrap.TrapIsNotSafe | internal/handlers/handlers.go:1471-1485 | a console and an accepted request for which it fails |
| Client.Virsh.SetTPM | internal/virsh/tpm.go:125-141 | defines exactly the edited dump of one VM, or changes nothing |
| TpmStore.Store.All | internal/tpm/store.go:85-93 | lists every pinned VM once |
| TpmStore.Store.ReconcileOne | internal/tpm/store.go:127-150 | one round of the loop repairs its own VM only, with at most one define |
| TpmStore.Store.Reconcile | internal/tpm/store.go:125-151 | after a pass, in whatever order, exactly the pinned VMs are repaired, with one define for each that needed it |
| TpmStore.AddedIsPresent | internal/virsh/tpm.go:73-89 | adding a device to any document whatever makes the reader find one |
| TpmStore.PassRestores | internal/tpm/store.go:118-151 | after a pass every pinned, defined VM with a device list has a TPM: the device was put before its last `</devices>` if it had none, and every other config is as it was |
| TpmStore.SecondPassIdle | internal/tpm/store.go:121-123 | on any documents a second pass defines nothing |
| DeviceStore.Virsh.HasHostdev | internal/virsh/virsh.go:535-545 | the loop over the hostdevs finds a matching one if there is any |
| DeviceStore.Store.All | internal/usb/store.go:86-94 | lists every pin once, in some order |
| DeviceStore.Store.ReconcilePin | internal/pci/store.go:133-160 | one round of the loop, with its early continues, is PassOne |
| DeviceStore.Store.Reconcile | internal/pci/store.go:132-161 | a pass is PassOver of some listing of the store |
| DeviceStore.AttachedMatchesIff | internal/usb/usb.go:100-110 | what is attached for one pin is found on behalf of another if and only if they name the same device ignoring case |
| DeviceStore.PassHasIff | internal/usb/store.go:132-163 | after a pass a VM has exactly the devices it had and those pinned to it, for every order and every other pin |
| DeviceStore.UsbPassIff | internal/virsh/virsh.go:459-488 | the same in the ids of the config: the USB devices after a pass are those declared before and those pinned, ignoring case |
| DeviceStore.PciPassIff | internal/virsh/virsh.go:514-564 | the same in the numbers of the config: the PCI devices after a pass are those declared before and those pinned |
| DeviceStore.SnippetIs | internal/pci/pci.go:174-187 | what is attached for a pin, part by part, and nothing for a malformed address |
| DeviceStore.PassAttaches | internal/usb/store.go:142-151 | a pass only appends, and each attached device was not declared before it |
| DeviceStore.SecondPassIdle | internal/usb/store.go:132-163 | on any pins, malformed ones included, a second pass attaches nothing |
| DeviceStore.KeyInjective | internal/usb/store.go:25-27 | among accepted pins of one kind the key tells the VM and the device text |
| DeviceStore.UnpinHoldsIff | internal/handlers/handlers.go:829-834 | in a device pass running alone an unpinned, detached device stays away if and only if no other pin of the VM names it in another case |
| DeviceStore.UnpinnedComesBack | internal/handlers/handlers.go:829-834 | a device pinned in capitals and unpinned in small letters comes back |
| Schedule.Store.Upsert | internal/schedule/schedule.go:110-130 | what is rejected, field by field what is stored, and that the run clock of an existing entry is kept |
| Schedule.Store.Tick | internal/schedule/schedule.go:163-186 | exactly the due entries are stamped and listed once, in any map order |
| Schedule.DueIff | internal/schedule/schedule.go:168-175 | an entry whose interval fits is due if and only if it is enabled and never ran or its whole interval has elapsed; a longer interval is taken modulo 64 bits |
| Schedule.SpacingIff | internal/schedule/schedule.go:168-175 | a due entry was last stamped at least its interval ago, despite flooring, if and only if the interval is at most 2562047 hours |
| Schedule.RunsStaySpaced | internal/schedule/schedule.go:109-186 | over every run of ticks, edits and other deletes, under any clock, two stamps of a VM are at least the interval apart |
| Retention.SortSorts | internal/schedule/schedule.go:238 | the sort yields its input in ascending order |
| Retention.LessIff | internal/schedule/schedule.go:238 | the order of names: the first difference decides, and a proper prefix comes first |
| Retention.NameReads | internal/schedule/schedule.go:199 | a name is `auto-`, the date in eight digits, a dash and the time in six, each part reading back as its number |
| Retention.NameOrder | internal/schedule/schedule.go:237-238 | lexical order of the timestamped names is civil-time order |
| Prune.Domain.PruneAutos | internal/schedule/schedule.go:223-253 | the names asked to delete, in order, and the snapshots left, failed deletions included; nothing for a Keep of 0 or less |
| Prune.DoomedIff | internal/schedule/schedule.go:222-242 | asked to delete, oldest first, are exactly the snapshots named `auto-` with at least Keep newer ones |
| Prune.ScheduledHolds | internal/schedule/schedule.go:188-220 | one scheduled run leaves exactly the `auto-` snapshots with fewer than Keep newer ones, and all others; the new one is among them if and only if fewer than Keep names sort behind it |
| Prune.RunHolds | internal/schedule/schedule.go:188-253 | the same after any number of runs, from any snapshots and at any times |
| Prune.RunHoldsNewest | internal/schedule/schedule.go:188-253 | at increasing civil times, from older names, the snapshot just taken is held and is the newest |
| SnapTable.RegexpSplitMulti | internal/virsh/virsh.go:222-245 | the builder loop computes SplitMulti |
| SnapTable.ListSnapshots | internal/virsh/virsh.go:171-208 | the row loop and the marking loop compute Snapshots of the output's lines |
| SnapTable.ValidNameIsField | internal/handlers/handlers.go:471-493 | every name accepted on creation can be read back from a table column |
| SnapTable.ValidNameIff | internal/handlers/handlers.go:471-493 | exactly which names are accepted: readable columns of the allowed characters, without a leading dash or a pair of dots, and not a dot |
| SnapTable.RowColumns | internal/virsh/virsh.go:222-245 | splitting a printed row gives exactly its columns, for any padding |
| SnapTable.RowReads | internal/virsh/virsh.go:181-196 | a printed row reads back as its snapshot and is not mistaken for the rule |
| SnapTable.TableRoundTrip | internal/virsh/virsh.go:177-206 | printed header lines, a rule of at least three dashes and rows read back as exactly their list, with the current one marked and no other |
| SnapTable.OutputRoundTrip | internal/virsh/virsh.go:171-208 | the same from the whole output text |
| Overlay.FileStem | internal/virsh/virsh.go:315-336 | the builder loop computes StemOf |
| Overlay.StemFixedIff | internal/virsh/virsh.go:309-336 | every stem is a safe file name component, and exactly the names of ASCII letters, digits, dots, dashes and underscores with neither dot nor underscore at an end are their own stem |
| Overlay.StemJoins | internal/virsh/virsh.go:309-336 | each run of other characters inside a name becomes one underscore, at its ends none, and a name of nothing else becomes `snap` |
| Overlay.StemsCollide | internal/handlers/handlers.go:471-493 | two names accepted on creation have one stem |
| Overlay.Specs | internal/virsh/virsh.go:281-303 | one disk spec per disk with its file name spelled out, CD-ROMs and floppies left out, and the memory file for a running or paused VM |
| Overlay.SameFileIff | internal/virsh/virsh.go:288-299 | two overlay files of a VM are the same if and only if disk and stem are |
| Overlay.MemoryIsApart | internal/virsh/virsh.go:296-303 | the memory file is none of the overlay files |
| PciAddress.HexInjective | internal/virsh/virsh.go:560-564 | equally long hexadecimal texts have the same value if and only if they are equal ignoring case |
| PciAddress.ParseHexIs | internal/virsh/virsh.go:560-564 | a part of an address has the same value bare and as written to the XML |
| PciAddress.WidthsRead | internal/virsh/virsh.go:560-564 | a number written in any width up to four digits, with or without `0x`, reads as that number |
| PciAddress.ValidAddressIff | internal/pci/pci.go:144-161 | a valid address is four, two and two hexadecimal digits and an octal one, with `:`, `:` and `.` between |
| PciAddress.AddressIs | internal/pci/pci.go:174-187 | what is written for an address, and the numbers read from it, are those of its four parts in their places |
| PciAddress.HostdevReadsBack | internal/pci/pci.go:174-187 | for every valid address the reader finds the device that was written |
| PciAddress.SameDeviceIff | internal/pci/pci.go:144-161 | two valid addresses have equal numbers if and only if they are equal ignoring case |
| Lspci.ParseLspci | internal/pci/pci.go:56-95 | the line loop with its flushing computes Devices |
| Lspci.NamedReads | internal/pci/pci.go:97-122 | a name that itself holds brackets is told from its id |
| Lspci.RecordReads | internal/pci/pci.go:67-92 | the lines of a printed record collect exactly its fields |
| Lspci.LspciRoundTrip | internal/pci/pci.go:56-95 | any printed records yield one device each, in order, with exactly their slot, ids, names, driver and passability |
| Lspci.PassableIff | internal/pci/pci.go:124-132 | exactly the devices of unknown class and of classes beginning with 06 are not passable |
| Autostart.Store.Set | internal/autostart/store.go:108-122 | what is rejected and what is stored |
| Autostart.Store.All | internal/autostart/store.go:86-95 | lists every entry once, in ascending Order |
| Autostart.Store.StartEntry | internal/autostart/store.go:175-207 | one round of the loop attempts exactly one start, of an enabled VM not running, or none; afterwards an enabled VM that can be started runs, and all others are as they were |
| Autostart.Store.Run | internal/autostart/store.go:154-218 | with the marker, or after twelve failed polls, nothing is started; otherwise every enabled VM that can be started is running afterwards, the others are as they were, and the starts attempted are those of the entries in order |
| Autostart.StartsInOrder | internal/autostart/store.go:147-208 | the starts of one orchestration ascend in Order and are exactly one for each enabled VM in any state but running |
| BootProtocol.InvStep | internal/autostart/store.go:154-257 | every step of Run, the watchdog, restarts and outside changes keeps the invariant |
| BootProtocol.BootIsOrderly | internal/autostart/store.go:142-257 | in every boot: starts of one Run in order and at most once each, no watchdog start before the marker, no Run start after it |
| BootProtocol.BootIsComplete | internal/autostart/store.go:154-257 | in every boot each orchestration and each watchdog tick that ended dealt with every entry: it started the VM, or read it as running or unknown, or for the watchdog as neither shut off nor crashed |

## Left out

- Subprocesses, files, JSON, mutexes, temporary files and tickers: the stores are maps, `dumpxml` and `define` read and write a map from VM to text, and a map's iteration order is any order.
- Failing `define`, `dumpxml` and `attach-device` calls, other than for a missing VM, a missing console or a missing device list; the convergence results are for loops whose calls succeed.
- libvirt's own rewriting of a defined document: `define` stores the text as given.
- `encoding/xml` in the hostdev readers: a config's hostdevs are the list of their attribute values, and in the protocol a set of devices.
- Attributes in both quotes at once, separated by newlines or with entities, in the structured view: it covers attributes one space apart in single quotes, the form libvirt prints, and for `tagAttr`, `tagDropAttr` and the marker in double quotes; the text functions and `VncText` cover all.
- Unicode beyond the space characters: a Go string is modelled as its characters, and `ToLower` is the ASCII one.
- ZVM's rewriting inside `Protocol` and `TextProtocol`: they start when it stops, from any config and any dumps in flight; `VncHandler` has outside rewrites between requests and passes, `Exposure` and `UnpinConfig` between any two steps.
- The protocol is the part of one VM: steps of the loops on other VMs do not change it.
- Waiting times: delays between starts, polling intervals and the watchdog's interval are steps in any order.
- Run's call that clears the libvirt-native autostart flag: it does not decide what is started.
- Time zones and daylight saving: civil times in names are tuples, run clocks are integers.
- TextRunsConverge: for pinned passwords that do not end in ` listen=` or ` port=`; PassProtectedIff says what a pass makes of these.
- NeverExposed: for posted passwords that do not end in ` listen=` or ` port=`, on the tags libvirt prints, and for requests and passes that run alone; PostSafeIff says exactly when the others break it, CanOpenIff when interleaving does.
- CanOpenIff: for one VM, the same passwords and tags; of the loops that define whole dumps it has the VNC one, a TPM define of an older dump is like that of a request for 127.0.0.1.
- PassMeetsPins: for entries whose password does not end in ` listen=` or ` port=` and whose pinned address has no `=` and no quote, as the handler ensures; PassProtectedIff says what a pass makes of the others.
- WriteThenRead: for addresses without quotes, angle brackets and `=`, the handler lets 127.0.0.1 and 0.0.0.0 through, and where the new tag is still a VNC tag; ListenMarker and TrapKeepsConsoleIff say when it is.
- ListenLastWinsIff: where the first edit's tag is still a VNC tag; ListenMarker says when it is.
- PasswordLastWinsIff: where the first edit's tag is still a VNC tag; PasswordFrame says what is found otherwise.
- EditsRead: on tags without a trapped value, for the same passwords.
- EditsCommute: on tags without a trapped value, for the same passwords.
- RemovalLeavesNone: well nested tags are enough, not necessary.
- RunHolds: for runs without errors; PruneAutos has the failing deletions.
- UnpinHoldsIff: for a USB device or a valid PCI address; what else is pinned may be malformed. Defines of older dumps by the other loops are in CanReturnIff.
- CanReturnIff: for one VM, with items as what the text holds; a password that hides an address from the check does not remove it.
- ReaderRefines: on documents of the structured view; Readers says the same of any text.
- ReadTextIff: for tags of the structured view, and like XML for no attribute twice.
- GET handlers, live-versus-persistent reports, CSRF and path checks, gateway registration, mounts, networks, storage, settings, backups, metrics, firmware reports and the web page: plumbing or easy members.
- `parseLsusb`, `DomainDisks`, `NetworkList` and IOMMU groups: simple filters next to the two parsers that are modelled.
