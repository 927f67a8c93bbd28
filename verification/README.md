# Elastic GPU agent: a verified model

The elastic GPU agent is a Kubernetes device plugin that shares NVIDIA cards
among containers. This project models its two hardest parts in Dafny and proves
what they are for.

**The wire codec** (`codec/`) is the generated Protocol Buffers code with which
the agent reads kubelet's pod resources API: five message types nested four
levels deep, printed into a preallocated buffer with length prefixes computed in
advance, and parsed by one loop per message over indexes, with a recursive
skipper for unknown fields and groups.

| file | contents |
|---|---|
| `codec/Varint.dfy` | base-128 varints in arithmetic: writing, measuring, reading |
| `codec/Bits.dfy` | the shifts and masks bit by bit, the varint loops, and their agreement with the arithmetic |
| `codec/Skipping.dfy` | the skipper, and the grammar of well-formed fields that it accepts |
| `codec/Parsing.dfy` | the parsing loop over any message type: concatenation, truncation, exact language |
| `codec/Messages.dfy` | the messages, how they are printed and measured, what each field does to them |
| `codec/RoundTrip.dfy` | parsing a printed message gives the message back |
| `codec/Refusals.dfy` | which error a refused input gets, in terms of its bytes, what is left of the message, and the order of printing |
| `codec/Laws.dfy` | inputs from elsewhere: any field order, shortest form, merging, cuts |
| `codec/Api.dfy` | the message classes with their methods, and the loops of the codec over arrays and indexes |

The structure is a specification on values, about which the laws are proved, and
methods on arrays and objects whose postconditions equate their effect with the
specification, so every law holds of the methods too.

**The allocation lifecycle** (`agent/`) starts with device ids that are hashed
into a name. `Allocate` advertises links of that name, `PreStartContainer` finds
the container that owns the ids, makes the links and stores a record, the
garbage collector removes the links and records of pods that are gone, and the
runtime hook reads the links back as card indexes.

| file | contents |
|---|---|
| `agent/Text.dfy` | splitting, joining and decimal numbers, as the Go library has them |
| `agent/Device.dfy` | canonical device lists and their hashes |
| `agent/Links.dfy` | the table of links and the operator that changes it |
| `agent/Hook.dfy` | the runtime hook |
| `agent/Locator.dfy` | finding the owner of a list of ids in kubelet's answer |
| `agent/Storage.dfy` | the bucket of records, and the map it stands for |
| `agent/Plugins.dfy` | device inventories, `Allocate`, and the numbers of the links |
| `agent/PreStart.dfy` | `PreStartContainer` with its rollback and the gaps of the rollback |
| `agent/Gc.dfy` | one pass of the garbage collector, under any pattern of failures |
| `agent/Lifecycle.dfy` | whole runs of starts and passes, and their invariant |
| `agent/Sharing.dfy` | containers that share a hash, as the same ids for cores and for memory do |
| `agent/Failures.dfy` | passes that meet a failure or what one has left: records that go before their links, and records that never go |
| `agent/Interleaving.dfy` | starts between the scan and the sweep, and between the lines of a sweep |
| `agent/Service.dfy` | which cards the hook finds for a container, over histories in which anything may fail |
| `agent/Steps.dfy` | the same interleavings, one system call or transaction at a time |
| `agent/Locking.dfy` | concurrent starts under the lock of their plugin |
| `agent/EndToEnd.dfy` | the methods of the plugins, the agent and the hook one after the other, from the ids to the cards |

Everything the environment decides is a parameter: whether a system call or a
database transaction succeeds (`Syscalls`, `Fates`, `commits`), what kubelet, the
informer and the API server answer (`Answers`, `View`), and the order in which a
directory or a bucket is listed. Lemmas without a hypothesis about these hold
for every environment.

Names, targets, annotation keys, environment variables and answers are stated in
full, as literal strings and numbers, in the postconditions of the methods that
deal with them, besides being equated with a function of the specification.

Where the code falls short of what one would expect of it, the model does what
the code does, and the exact condition under which the expectation holds is
proved:

| expectation | holds exactly when | result |
|---|---|---|
| a start keeps links and records matched and hashes apart | the hash is the container's own, and its record and its annotation come out at the number of links of its device | `Lifecycle.StartKeepsInvIff`, over runs `Lifecycle.RunsKeepInvIff` |
| a start that cannot be saved leaves nothing changed | no container on record has the hash; otherwise the rollback deletes links that an earlier start made, and the reply is a success | `Lifecycle.UnsavedStartKeepsInvIff` |
| a start that fails in the creating loop leaves nothing behind | every link before the failing one existed, and the failing call made none | `PreStart.FailedCreationLeavesNothingIff` |
| links come in pairs | no operation stops between its two steps | `Links.CreateKeepsPairs`, `Links.DeleteKeepsPairs` |
| a pod's record goes only after all of its links | the pod has one container on record | `Failures.RecordGoesLastIff` |
| a pass in two phases is a pass in one step | for a start with a new hash: the pass does not drop its pod, or the start records nothing; for any start when nothing fails: neither its hash nor its pod is that of a container found gone, or its annotation cannot be read | `Interleaving.PassCommutesIff`, `Interleaving.StartAndPassCommuteIff` |
| a start that reads its pod's record before a pass drops it and writes it afterwards is a start after the pass | the record has no other container | `Steps.DroppedRecordReturnsIff` |
| no saved device is lost | calls of two plugins for one pod are for one container | `Locking.NoLostUpdatesIff` |
| some hash function tells containers with cores and with memory apart | they were not handed out the same ids | `Sharing.ResourcesShareHashIff` |
| a container that starts gets links of its own | no recorded container has its hash and as many links | `Sharing.StartMakesNoLinkIff` |
| collecting a pod leaves the links of the others | none of its containers shares a hash with one of theirs | `Lifecycle.CollectKeepsLinksIff`, `Failures.CollectKeepsLinksAloneIff` |
| a pass without failures collects all pods that are gone | no two of them share a hash, and all their links are there; a record that lacks a link stays for good | `Failures.PassGoesThroughIff`, `Failures.CollectsAllIff`, `Failures.LackingKeepsRecord` |
| a saved start leaves the cards of others with its hash as they are | it asks for no more links than they have; then it gets their cards | `Service.SavedStartSparesIff`, `Service.LaterStartGetsOldCards` |
| a record reads back as its pod's | the pod's names are proper path segments | `Storage.KeyReadsBackIff` |

## Model

| member | source | states |
|---|---|---|
| Varint.DecodeBounds64 | pkg/podresources/v1alpha1/api.pb.go:569-582 | an accepted varint took 1 to 10 bytes, its value fits in 64 bits, and the shortest encoding of the value is not longer than what was read |
| Varint.DecodeEncode64 | pkg/podresources/v1alpha1/api.pb.go:410-418 | for every 64-bit value and any bytes after it, reading gives back what was written and consumes exactly its bytes |
| Varint.EncodeLength | pkg/podresources/v1alpha1/api.pb.go:489-498 | the computed size is the number of bytes that writing produces |
| Varint.SovAtMostTen | pkg/podresources/v1alpha1/api.pb.go:489-498 | a 64-bit value takes 1 to 10 bytes |
| Varint.DecodeStable | pkg/podresources/v1alpha1/api.pb.go:569-582 | unless the input ended too early, no further bytes change what was read, overflow included |
| Varint.DecodeTruncated | pkg/podresources/v1alpha1/api.pb.go:573-575 | every proper prefix of an accepted varint is reported as an early end of input |
| Varint.Int32 | pkg/podresources/v1alpha1/api.pb.go:583 | the field number is the tag's upper part reduced to a signed 32-bit value |
| Bits.AndMask | pkg/podresources/v1alpha1/api.pb.go:578 | masking with n low ones, bit by bit, is the remainder modulo the n-th power of two |
| Bits.OrDisjoint | pkg/podresources/v1alpha1/api.pb.go:578 | the bitwise or of values that share no bit is their sum |
| Bits.AccumulateAdds | pkg/podresources/v1alpha1/api.pb.go:578 | or-ing in a shifted group of seven bits adds it at its place; of a tenth group only the lowest bit survives in 64 bits |
| Bits.BitDecodeIsDecode | pkg/podresources/v1alpha1/api.pb.go:569-582 | the shift-and-mask loop, from any point it can reach, computes the arithmetic value, with the same errors |
| Bits.DecodeVarint | pkg/podresources/v1alpha1/api.pb.go:568-582 | the loop repeated in every parser reads one varint at an index, or reports overflow or the end of input, also when the index lies past the end |
| Bits.EncodeVarintApi | pkg/podresources/v1alpha1/api.pb.go:410-418 | writes exactly the encoding at the offset, leaves every other byte alone, never indexes outside, and returns the offset after it |
| Bits.SovApi | pkg/podresources/v1alpha1/api.pb.go:489-498 | the size loop gives the length of the encoding, between 1 and 10 |
| Skipping.Skip | pkg/podresources/v1alpha1/api.pb.go:1051-1149 | a skipped field takes at least one byte, which is what makes the recursion end |
| Skipping.SkipGroup | pkg/podresources/v1alpha1/api.pb.go:1110-1138 | a skipped group ends within the input, after at least one byte |
| Skipping.SkipPrint | pkg/podresources/v1alpha1/api.pb.go:1051-1149 | for every well-formed field, groups nested to any depth, and any bytes after it, the skipper returns exactly the field's length |
| Skipping.SkipExactly | pkg/podresources/v1alpha1/api.pb.go:1051-1149 | n bytes of the input can be skipped if and only if they are a well-formed field or a lone end-group tag |
| Skipping.SkipStable | pkg/podresources/v1alpha1/api.pb.go:1051-1149 | unless the input ended too early, no further bytes change the result |
| Skipping.SkipTruncated | pkg/podresources/v1alpha1/api.pb.go:1051-1149 | of a field cut short the skipper reports the end of input, or a length beyond what there is |
| Parsing.NextPieceStable | pkg/podresources/v1alpha1/api.pb.go:698-825 | the head of the loop decides tag, length and error independently of what follows the field |
| Parsing.NextPieceTruncated | pkg/podresources/v1alpha1/api.pb.go:698-825 | a field cut anywhere inside is an early end of input |
| Parsing.ParseConcat | pkg/podresources/v1alpha1/api.pb.go:694-832 | for every message type, parsing a + b is parsing b from the result of an accepted a, whatever b leads to |
| Parsing.ParseErrorFinal | pkg/podresources/v1alpha1/api.pb.go:694-832 | an error other than an early end of input, and the message left behind with it, stay the same whatever is appended |
| Parsing.ParseTruncated | pkg/podresources/v1alpha1/api.pb.go:694-832 | an accepted input cut anywhere is accepted exactly at a field boundary, and leaves the message of the whole fields before the cut either way |
| Parsing.ParsePrint | pkg/podresources/v1alpha1/api.pb.go:694-832 | any sequence of legal fields parses to what they mean in order, unknown ones ignored |
| Parsing.ParseExactly | pkg/podresources/v1alpha1/api.pb.go:694-832 | the accepted inputs are exactly the sequences of legal fields whose known fields all apply, and the result is their meaning |
| Messages.DevicesLength | pkg/podresources/v1alpha1/api.pb.go:473-487 | the size of a ContainerDevices is the length of its printed form |
| Messages.ContainerLength | pkg/podresources/v1alpha1/api.pb.go:457-471 | the size of a ContainerResources is the length of its printed form |
| Messages.PodLength | pkg/podresources/v1alpha1/api.pb.go:437-455 | the size of a PodResources is the length of its printed form |
| Messages.ResponseLength | pkg/podresources/v1alpha1/api.pb.go:425-435 | the size of a response is the length of its printed form |
| RoundTrip.DevicesRoundTrip | pkg/podresources/v1alpha1/api.pb.go:381-408 | every printed ContainerDevices below 2^63 bytes parses back to the same value |
| RoundTrip.ContainerRoundTrip | pkg/podresources/v1alpha1/api.pb.go:345-369 | every printed ContainerResources parses back to the same value |
| RoundTrip.PodRoundTrip | pkg/podresources/v1alpha1/api.pb.go:303-333 | every printed PodResources parses back to the same value |
| RoundTrip.ResponseRoundTrip | pkg/podresources/v1alpha1/api.pb.go:273-291 | every printed response parses back to the same value at all four levels |
| Laws.MeaningIsFold | pkg/podresources/v1alpha1/api.pb.go:812-825 | unknown fields, wherever they stand, have no part in the result |
| Laws.DevicesInAnyOrder | pkg/podresources/v1alpha1/api.pb.go:971-1043 | fields in any order: the last resource name wins and the ids come in order of occurrence |
| Laws.ContainerInAnyOrder | pkg/podresources/v1alpha1/api.pb.go:861-935 | fields in any order: the last name wins, the devices come in order, and the input is refused exactly when one of the devices is |
| Laws.PodInAnyOrder | pkg/podresources/v1alpha1/api.pb.go:722-825 | fields in any order: the last name and namespace win, the containers come in order, and the input is refused exactly when one of the containers is |
| Laws.ResponseInAnyOrder | pkg/podresources/v1alpha1/api.pb.go:641-686 | the pods come in order, and the input is refused exactly when one of the pods is |
| Laws.DevicesShortest | pkg/podresources/v1alpha1/api.pb.go:943-1050 | parsing never makes the printed size of a ContainerDevices grow by more than the bytes parsed |
| Laws.ContainerShortest | pkg/podresources/v1alpha1/api.pb.go:833-942 | the same for ContainerResources |
| Laws.PodShortest | pkg/podresources/v1alpha1/api.pb.go:694-832 | the same for PodResources |
| Laws.ResponseShortest | pkg/podresources/v1alpha1/api.pb.go:613-693 | however an accepted response was written, printing it again takes no more bytes |
| Laws.ResponseNormalForm | pkg/podresources/v1alpha1/api.pb.go:263-291 | printing what was parsed and parsing that gives the same message, in no more bytes |
| Laws.ResponsesMerge | pkg/podresources/v1alpha1/api.pb.go:613-693 | two printed responses one after the other parse to the pods of both |
| Laws.ResponseTruncated | pkg/podresources/v1alpha1/api.pb.go:643-672 | a printed response cut anywhere gives the pods before the cut, and is accepted exactly when the cut falls between two pods |
| Refusals.VarintRefused | pkg/podresources/v1alpha1/api.pb.go:569-582 | a varint is an overflow exactly if its first ten bytes all announce another one, an early end exactly if there are fewer bytes and all do, and is not refused otherwise |
| Refusals.TagRefused | pkg/podresources/v1alpha1/api.pb.go:714-726 | the verdict on a tag: a stray end of a group, then a number whose lowest 32 bits are not positive, then a known number on a field that is not length-delimited, then a wire type that does not exist; each with message, number and wire type |
| Refusals.LengthRefused | pkg/podresources/v1alpha1/api.pb.go:727-749 | the verdict on a length, of known and unknown fields alike: the error of its varint, an invalid length from 2^63 on, an early end if it goes beyond the input, and none otherwise |
| Refusals.GroupRefused | pkg/podresources/v1alpha1/api.pb.go:1110-1138 | inside a group, however deep, the error is that of the first bad field |
| Refusals.FirstBadField | pkg/podresources/v1alpha1/api.pb.go:694-832 | the loop stops at the first bad field with its error, and with the message as the fields before it have left it |
| Refusals.NamedInErrors | pkg/podresources/v1alpha1/api.pb.go:716-726 | the name of each of the five messages in its errors, and the numbers of its known fields |
| Refusals.RefusedInContainer | pkg/podresources/v1alpha1/api.pb.go:917-920 | a ContainerDevices that is refused stays in its container as far as it got, and its error is the container's, whatever follows |
| Refusals.RefusedInPod | pkg/podresources/v1alpha1/api.pb.go:807-810 | the same for a container in its pod |
| Refusals.RefusedInResponse | pkg/podresources/v1alpha1/api.pb.go:668-671 | the same for a pod in its response |
| Refusals.DevicesInOrder | pkg/podresources/v1alpha1/api.pb.go:381-408 | a ContainerDevices is printed in ascending order of the field numbers |
| Refusals.ContainerInOrder | pkg/podresources/v1alpha1/api.pb.go:345-369 | so is a ContainerResources |
| Refusals.PodInOrder | pkg/podresources/v1alpha1/api.pb.go:303-333 | so is a PodResources |
| Refusals.PrintedInFull | pkg/podresources/v1alpha1/api.pb.go:273-408 | tags, lengths and contents at all four levels, byte by byte |
| Api.SkipApi | pkg/podresources/v1alpha1/api.pb.go:1051-1149 | the recursive method on slices and indexes returns what the skipper's specification says, with the same errors |
| Api.SkipApiGroup | pkg/podresources/v1alpha1/api.pb.go:1110-1138 | the loop inside it finds the end of the group, or the first error |
| Api.ReadPiece | pkg/podresources/v1alpha1/api.pb.go:567-605 | the head of every parsing loop: tag, checks, length and payload bounds, or the skipped field, never indexing outside |
| Api.PutLength | pkg/podresources/v1alpha1/api.pb.go:396-403 | the varint loop inlined for device ids writes the same bytes as the shared one |
| Api.PutDeviceId | pkg/podresources/v1alpha1/api.pb.go:393-405 | one id is written as a length-delimited record and nothing else in the buffer changes |
| Api.PutString | pkg/podresources/v1alpha1/api.pb.go:308-313 | one string field is written as a length-delimited record and nothing else in the buffer changes |
| Api.ListPodResourcesRequest.Unmarshal | pkg/podresources/v1alpha1/api.pb.go:563-612 | everything is skipped or refused as the specification of a message without fields says |
| Api.ContainerDevices.Unmarshal | pkg/podresources/v1alpha1/api.pb.go:943-1050 | the object's new value and the error are those of the specification from the object's old value |
| Api.ContainerDevices.Size | pkg/podresources/v1alpha1/api.pb.go:473-487 | the printed size |
| Api.ContainerDevices.MarshalTo | pkg/podresources/v1alpha1/api.pb.go:381-408 | writes exactly the printed form at the offset, leaves the rest of the buffer alone, and returns its length |
| Api.ContainerDevices.Marshal | pkg/podresources/v1alpha1/api.pb.go:371-379 | returns exactly the printed form |
| Api.ContainerResources.Unmarshal | pkg/podresources/v1alpha1/api.pb.go:833-942 | as above, appending new objects for the devices and keeping a partly parsed one when it fails |
| Api.ContainerResources.Size | pkg/podresources/v1alpha1/api.pb.go:457-471 | the printed size |
| Api.ContainerResources.MarshalTo | pkg/podresources/v1alpha1/api.pb.go:345-369 | writes exactly the printed form; every length prefix is what the nested call then writes |
| Api.ContainerResources.PutField | pkg/podresources/v1alpha1/api.pb.go:321-330 | a nested message's length prefix equals the number of bytes that its MarshalTo returns |
| Api.PodResources.Unmarshal | pkg/podresources/v1alpha1/api.pb.go:694-832 | as above, for names, namespaces and containers |
| Api.PodResources.Size | pkg/podresources/v1alpha1/api.pb.go:437-455 | the printed size |
| Api.PodResources.MarshalTo | pkg/podresources/v1alpha1/api.pb.go:303-333 | writes exactly the printed form and nothing else |
| Api.ListPodResourcesResponse.Unmarshal | pkg/podresources/v1alpha1/api.pb.go:613-693 | as above, for the pods |
| Api.ListPodResourcesResponse.Size | pkg/podresources/v1alpha1/api.pb.go:425-435 | the printed size |
| Api.ListPodResourcesResponse.MarshalTo | pkg/podresources/v1alpha1/api.pb.go:273-291 | writes exactly the printed form and nothing else |
| Api.ListPodResourcesResponse.Marshal | pkg/podresources/v1alpha1/api.pb.go:263-271 | returns exactly the printed form |
| Api.MarshalThenUnmarshal | pkg/podresources/v1alpha1/api.pb.go:263-291 | a response object marshalled and unmarshalled into a new object has the same value, and no error is reported |
| Text.JoinAppend | cmd/elastic-gpu-hook/main.go:232 | joining two lists puts one separator between what each of them gives alone |
| Text.DecimalDigits | pkg/plugins/gpushare.go:65 | a number is printed as its decimal digits, the most significant first, without leading zeros |
| Text.AtoiOfDigits | pkg/plugins/gpushare.go:119 | digits with or without a sign are read as their value, and refused exactly beyond 64 bits |
| Text.AtoiRefuses | pkg/plugins/gpushare.go:119-123 | nothing else is read as a number |
| Text.LeadingZero | pkg/plugins/gpushare.go:119 | zeros in front of digits do not change the value |
| Devices.LeIsByteOrder | pkg/types/device.go:19 | ids are compared by the first byte in which they differ, a prefix coming first |
| Devices.SortCanonical | pkg/types/device.go:17-25 | sorting forgets exactly the order of the ids, and any sorted arrangement of them is the one that sorting gives |
| Devices.NewDeviceIs | pkg/types/device.go:17-25 | a device has any sorted arrangement of its ids, the hash of these joined with colons, and its resource |
| Devices.EqualLists | pkg/types/device.go:37-47 | the element-wise loop decides equality of the lists |
| Devices.EqualsIffSameIds | pkg/types/device.go:17-29 | two devices are equal if and only if their resource is the same and their ids are the same multiset, and the same ids give the same hash whatever the resources |
| Devices.HashedTextDeterminesIds | pkg/types/device.go:49-54 | for ids without a colon the hashed text determines the ids |
| Links.GPUShareOperator.Create | pkg/operator/gpushare.go:31-55 | for every outcome of the two system calls: link elastic-gpu-<id> points at /dev/nvidia<index> and link elastic-gpuctl-<id> at /dev/nvidiactl if they were not there, every other entry is as before, and the reply; a link that exists already is a success |
| Links.GPUShareOperator.Delete | pkg/operator/gpushare.go:57-69 | for every outcome of the two system calls: which of the links elastic-gpu-<id> and elastic-gpuctl-<id> are gone, that every other entry is as before, and the reply |
| Links.GPUShareOperator.Check | pkg/operator/gpushare.go:71-77 | true if and only if both links are there, under their names in full |
| Links.CheckAfterCreate | pkg/operator/gpushare.go:31-77 | after a Create, whatever fails in it, Check finds the pair if and only if the Create reported success and did not find a link without its partner |
| Links.CheckAfterDelete | pkg/operator/gpushare.go:57-77 | after a Delete, Check finds the pair if and only if it was there and the first call failed; after a successful Delete never |
| Links.DeleteUndoesCreate | pkg/operator/gpushare.go:31-69 | deleting what was created under free names restores the table |
| Links.CreateKeepsPairs | pkg/operator/gpushare.go:31-55 | every link keeps its control partner if and only if the call does not stop between its two steps |
| Links.DeleteKeepsPairs | pkg/operator/gpushare.go:57-69 | the same for deleting |
| Links.IdInjective | pkg/plugins/gpushare.go:128 | with hashes of one length, different hashes or numbers give different ids |
| Hook.FindGPUIndexes | cmd/elastic-gpu-hook/main.go:132-158 | the loop over the directory collects the indexes of the links of the given hash in listing order; a number is among them if and only if a listed link of the hash has it after the first six characters of the third segment of its target |
| Hook.GPUIndexOfPath | cmd/elastic-gpu-hook/main.go:122-130 | the target that the agent gives a link reads back as the card's index |
| Hook.HookFindsLinks | cmd/elastic-gpu-hook/main.go:132-158 | in any table whose links of a hash are those of some cards, the hook finds exactly that multiset of cards, whatever other links exist and however the directory is listed |
| Hook.HookFindsWhatAgentMade | pkg/operator/gpushare.go:31-55 | in particular after the agent has made a link per index for a hash that had none |
| Hook.LinksAreIndexable | cmd/elastic-gpu-hook/main.go:127-129 | the hook never meets a target of the agent's that it cannot index |
| Hook.JoinIndexes | cmd/elastic-gpu-hook/main.go:228-232 | the loop builds the comma-separated argument |
| Hook.PrestartCommand | cmd/elastic-gpu-hook/main.go:224-235 | the command of the prestart hook: the indexes in decimal, comma-separated, as a third word, or no third word at all |
| Hook.ArgumentReadsBack | cmd/elastic-gpu-hook/main.go:228-232 | the argument determines the indexes: read as an annotation it gives them back |
| Locator.KubeletDeviceLocator.Locate | pkg/kube/locator.go:43-93 | an owner that is found has, byte for byte, the namespace and the name of a pod and the name of its container that matches, and no container before it in kubelet's answer matches; if there is none, none matches; a failed dial or call is reported and leaves the locator to redial |
| Locator.KubeletDeviceLocator.MatchContainer | pkg/kube/locator.go:64-89 | a container matches by one entry or by all its entries for the resource together |
| Locator.LocateFindsTheOwner | pkg/kube/locator.go:61-92 | if no id belongs to two containers, then the result for a request that has an id of container j of pod i names, byte for byte, that pod's namespace and name and that container, and the container owns all the ids of the request |
| Locator.LocateFindsIff | pkg/kube/locator.go:61-92 | there is a result if and only if some container has exactly the wanted multiset, in one entry or in all of them |
| Locator.WholeAllocationIsFound | pkg/kube/locator.go:61-92 | a container's whole allocation is found however kubelet splits it over entries |
| Locator.OwnedConcat | pkg/kube/locator.go:64-79 | what a container owns comes in the order of its entries |
| Locator.OwnedOfEntry | pkg/kube/locator.go:66-77 | an entry adds its ids, byte for byte and in order, if its name is the resource, and nothing otherwise |
| Storage.KeyReadsBackIff | pkg/types/pod.go:39-53 | a pod's key reads back as the pod if and only if its names are non-empty, free of slashes, not ".", and ".." is the name only below "..": checkable before saving |
| Storage.CleanIsClean | pkg/types/pod.go:51-53 | of any pod whatsoever: a cleaned path has no empty segment and no ".", ".." at the front only and never below the root, and starts at the root exactly if the path did |
| Storage.DeleteKeyAgrees | pkg/storage/storage.go:47-51 | for such pods deletion and saving use the same key, the namespace and the name with a slash between |
| Storage.StorageIsAMap | pkg/storage/storage.go:47-89 | after any sequence of saves and deletions of plainly named pods the bucket holds exactly what a map from pods would |
| Storage.LoadRefines | pkg/storage/storage.go:59-69 | loading is looking up in that map |
| Storage.ForEachVisitsRecords | pkg/storage/storage.go:79-89 | every key of the bucket is read back as a record of that map |
| Storage.BoltStorage.Save | pkg/storage/storage.go:53-57 | the new bucket, under namespace, slash and name for plainly named pods, and the new map; a failed transaction changes neither |
| Storage.BoltStorage.Load | pkg/storage/storage.go:59-69 | what the value under the pod's key reads as, or an error when there is none or it cannot be read: for plainly named pods the pod's record in the map |
| Storage.BoltStorage.LoadOrCreate | pkg/storage/storage.go:71-77 | the pod's record, or an empty one |
| Storage.BoltStorage.Delete | pkg/storage/storage.go:47-51 | the bucket without namespace, slash and name, and the new map; a failed transaction changes neither |
| Storage.BoltStorage.ForEach | pkg/storage/storage.go:79-89 | hands on, in key order, the entries that are records, with namespace and name from the two segments of the key, and stops with an error at the first one that is not |
| Plugins.NewDevices | pkg/plugins/gpushare.go:23-32 | both constructors' nested loops list one id per part of every card |
| Plugins.NewCoreDevices | pkg/plugins/gpushare.go:19-34 | a hundred ids for every card in order: the number of the card, a dash, and that of the part with two digits |
| Plugins.NewMemoryDevices | pkg/plugins/gpushare.go:154-169 | an id for every whole megabyte of every card in order, with the part's number of at least two digits |
| Plugins.InventoryDistinct | pkg/plugins/gpushare.go:154-167 | no two parts of any cards share an id, and no id has a colon |
| Plugins.AdvertisedIff | pkg/plugins/gpushare.go:47-76 | for every resource and list length, link i is among the devices of Allocate's answer if and only if i is below the number of links that the garbage collector goes by |
| Plugins.AdvertisedLinksAreMadeIff | pkg/plugins/gpushare.go:127-128 | the links made for a new hash are those that Allocate advertised, no more and no less, if and only if the annotation has as many indexes as the device has links |
| Plugins.ConcatAppend | pkg/plugins/gpushare.go:37-40 | the requests of several containers are taken one after the other |
| Plugins.ConcatOne | pkg/plugins/gpushare.go:37-40 | and those of one container are its ids in their order |
| Plugins.AllocateCore | pkg/plugins/gpushare.go:36-86 | an empty request is refused; otherwise GPU is the hash of all the ids and NVIDIA_VISIBLE_DEVICES is "none", there are no other variables, and the devices are the three control devices and then links 0, 1, .. of the hash, one for every hundred ids or one, each with both paths and its permissions in full |
| Plugins.AllocateMemory | pkg/plugins/gpushare.go:171-211 | the same for memory, with link 0 first and then the control devices |
| PreStart.GPUShareDevicePlugin.PreStartContainer | pkg/plugins/gpushare.go:88-148 | links, bucket and reply after the call, for every outcome of the environment and every pod; which check refuses, in the order of the checks and with the annotation keys in full; a refused or unsaved call leaves bucket and records alone; and a saved one writes the device under the located namespace, name and container, as long as pods have plain names |
| PreStart.AnnotationIsRead | pkg/plugins/gpushare.go:116-125 | an annotation is read if and only if all of its parts are numbers, those between commas for cores and the whole for memory, and then as these numbers in order |
| PreStart.GPUShareDevicePlugin.CreateAll | pkg/plugins/gpushare.go:127-132 | the creating loop stops at the first link that cannot be made |
| PreStart.GPUShareDevicePlugin.DeleteAll | pkg/plugins/gpushare.go:133-142 | the rollback goes through all the links and ignores failures |
| PreStart.RollbackUndoesCreation | pkg/plugins/gpushare.go:127-142 | rolling back links made under free names restores the table |
| PreStart.UnsavedStartSucceeds | pkg/plugins/gpushare.go:144-147 | when a new container's record cannot be saved, links and records are as before and the reply is a success all the same |
| PreStart.FailedCreationLeavesNothingIff | pkg/plugins/gpushare.go:127-132 | a creating loop that fails leaves the table as it was if and only if every link before the failing one existed and the failing call made no link |
| Gc.GPUSharePlugin.Scan | pkg/plugins/base.go:258-280 | lists exactly the containers recorded, with their devices, for pods that are not in the informer and that the API server reports not found, each once |
| Gc.GPUSharePlugin.SweepOne | pkg/plugins/base.go:282-303 | links and records after one line, and how far it got, whichever deletions fail |
| Gc.GPUSharePlugin.SweepPass | pkg/plugins/base.go:281-304 | links and records after the sweep, which is abandoned when a first link is stuck |
| Gc.GPUSharePlugin.Collect | pkg/plugins/base.go:258-304 | one whole pass, whatever fails: links and records are those after sweeping all such containers; a record changes only for a pod outside the informer that the API server reports not found, and a link goes only if such a pod's record stands for it |
| Gc.SweepRemovesOnlyLines | pkg/plugins/base.go:281-304 | under any failures a sweep removes only links and records of its lines and changes nothing else |
| Gc.RecordGoesAfterLinks | pkg/plugins/base.go:281-304 | under any failures a record goes only after all the links of one of its pod's lines |
| Gc.PassIsSafe | pkg/plugins/base.go:258-304 | under any failures a pass leaves the record of every pod that is in the informer or not reported not found, removes no link that no record of another pod stands for, and removes a one-container pod's record only after all its links |
| Failures.RecordGoesLastIff | pkg/plugins/base.go:281-304 | in a state that a run can reach, the record of a pod that is gone goes only after all of its links, whatever fails in the pass, if and only if the pod has one container on record |
| Failures.SweepUntil | pkg/plugins/base.go:282-284 | a pass whose only failure is the first deletion of some line keeps all links of that line, and has dropped the records of the lines before |
| Failures.LackingKeepsRecord | pkg/plugins/base.go:281-304 | a pod each of whose containers lacks a link keeps its record in every pass, whatever fails or does not: what a half-done deletion or a record that could not be deleted has left stays for good |
| Failures.PassGoesThroughIff | pkg/plugins/base.go:281-304 | in any state, a pass without failures removes the links of all of its lines if and only if no two containers of gone pods share a hash and all their links are there |
| Failures.CollectsAllIff | pkg/plugins/base.go:258-304 | if the pods that are gone have one container each, a pass without failures drops all their records if and only if no two of them share a hash and all their links are there |
| Failures.CollectKeepsLinksAloneIff | pkg/plugins/base.go:281-304 | if they have one container each, a pass without failures keeps links and records matched if and only if no container of a gone pod shares its hash with any other container |
| Lifecycle.StartKeepsInvIff | pkg/plugins/gpushare.go:114-147 | of all starts, exactly those keep the invariant that have an unreadable annotation, or a hash of their own and links that come out at the device's number: as many indexes as links for a container not on record, and for one that is, the same hash and the larger of its links and its indexes |
| Lifecycle.RestartChangesNothing | pkg/operator/gpushare.go:38-40 | a recorded container that starts again with its device changes neither links nor records, whatever cards its annotation names, and the reply is a success |
| Lifecycle.UnsavedStartKeepsInvIff | pkg/plugins/gpushare.go:133-147 | a start whose record cannot be saved replies with success, and keeps the invariant if and only if no container on record has the hash; then it changes nothing |
| Lifecycle.CollectKeepsInv | pkg/plugins/base.go:258-304 | a pass that meets no failure keeps the invariant; it drops exactly the records of pods that are gone and have a container on record, and exactly their links, and changes nothing else |
| Lifecycle.CollectKeepsLinksIff | pkg/plugins/base.go:281-304 | provided that the hashes among the pods that are gone differ, a pass without failures keeps links and records matched if and only if no container that is gone shares its hash with one that is not |
| Lifecycle.RunsKeepInvIff | pkg/plugins/base.go:258-304 | over every run of starts and passes, the links on disk are at every point exactly those that the records stand for, and no two recorded containers share a hash, if and only if every start fits its state as StartKeepsInvIff says |
| Lifecycle.OrderlyRunsKeepInv | pkg/plugins/gpushare.go:114-147 | so they are over every run of first starts with new hashes, restarts, and passes |
| Lifecycle.NewAgentKeepsInvIff | pkg/operator/gpushare.go:79-82 | both of these from a disk without links of the agent's and an empty store on |
| Lifecycle.InvIsPaired | pkg/operator/gpushare.go:71-77 | under the invariant every link has its control partner and every control link its link |
| Lifecycle.CheckTellsRecord | pkg/operator/gpushare.go:71-77 | under the invariant, Check finds link i of a recorded container if and only if i is below its number of links |
| Lifecycle.CollectEvent | pkg/plugins/base.go:258-304 | the method of a whole pass, when nothing fails, is an event of such a run; under the invariant every pod outside the informer that is reported not found and has a container on record loses its record, and no link or control link of its containers' hashes is left |
| Lifecycle.StartEvent | pkg/plugins/gpushare.go:88-148 | PreStartContainer, when its checks pass and nothing fails, is an event of such a run |
| Lifecycle.AdvertisedLinksAreThereIff | pkg/plugins/gpushare.go:127-132 | in any state that a run can reach, after any start exactly the links that Allocate advertised for the device are there, if and only if the larger of the links that its hash had and the indexes of its annotation is the device's number |
| Lifecycle.NoLinkIsLeft | pkg/plugins/base.go:281-304 | after a pass without failures that found its pod gone, no link of a container's hash is left |
| Service.LiveContainersStay | pkg/plugins/base.go:261-264 | over every history of starts and passes, whatever fails in it, a recorded container whose pod no pass finds gone stays on record with the device of its last start that was saved |
| Service.HookAlongHistory | cmd/elastic-gpu-hook/main.go:211-218 | over every history after a saved start with a hash that had no link, whatever fails in it, the hook finds exactly the cards of that start's annotation, that is the multiset of any numbers of which the annotation is the comma-separated decimal form, as long as no start with the hash asks for more links or fails to be saved and no container with the hash is found gone |
| Service.MemoryStartGetsItsCard | pkg/plugins/gpushare.go:239-263 | for every 64-bit n: a memory start with annotation n and a hash without links makes link 0 of the hash point at /dev/nvidia<n>, and the hook finds n alone |
| Service.CoreStartGetsItsCards | pkg/plugins/gpushare.go:114-147 | for all 64-bit numbers: a core start whose annotation is these numbers joined with commas makes link i of the hash point at /dev/nvidia<number i>, and the hook finds exactly these numbers |
| Service.StartGetsItsCards | pkg/plugins/gpushare.go:127-132 | of either resource, the links of the hash are then those and no others |
| Service.TargetsAlongHistory | pkg/operator/gpushare.go:31-55 | over every history, whatever fails in it, every control link of the agent's points at /dev/nvidiactl and every link of it at /dev/nvidia and a number |
| Service.TargetsAlongRun | pkg/operator/gpushare.go:31-55 | and over every run |
| Service.SavedStartSparesIff | pkg/operator/gpushare.go:38-40 | of the starts with the hash that save a record, exactly those that ask for no more links leave its links as they are |
| Service.LaterStartGetsOldCards | pkg/operator/gpushare.go:38-40 | a start with a hash whose links are there already, of the same container, of the other resource, or of a new pod given the ids of one not yet collected, replies with success and is recorded, and the hook finds the old cards for it |
| Sharing.InventoriesCollideIff | pkg/plugins/gpushare.go:154-167 | the core and the memory plugin number some part alike if and only if some card has a megabyte of memory |
| Sharing.ResourcesShareHashIff | pkg/types/device.go:49-54 | for ids of the two inventories, a container with cores and one with memory have the same hash under every hash function if and only if they were handed out the same ids, and they are never equal as devices |
| Sharing.StartMakesNoLinkIff | pkg/operator/gpushare.go:38-40 | a container not on record starts with success and is recorded, and it gets no link of its own if and only if a recorded container has its hash and as many links |
| Sharing.MemoryAfterCores | pkg/plugins/gpushare.go:239-263 | a container with memory that starts while one with the same ids for cores is on record makes no link, and is recorded with success |
| Sharing.SharedLinkIsLost | pkg/plugins/base.go:281-304 | whenever links match records, a pass that finds gone one of two pods whose containers share a hash removes the link of the other, which stays on record |
| Sharing.CollectingOneLosesTheOther | pkg/plugins/base.go:281-304 | so it does after a start that made no link of its own, whichever of the two pods is gone |
| Interleaving.LineCommutesIff | pkg/plugins/base.go:281-304 | sweeping a line and starting a container of another hash commute, whatever fails in either, if and only if it is not the case that the pod is the same, the line drops its record, and the start saves it |
| Interleaving.PassCommutesIff | pkg/plugins/base.go:281-304 | the same for a whole pass, or any remaining part of one: the start comes out as after the pass if and only if the pass does not drop its pod or the start saves nothing |
| Interleaving.DropsIff | pkg/plugins/base.go:281-304 | a pass drops a pod on record if and only if the pod is not on record after the pass alone |
| Interleaving.InterleavedPassIsAtomic | pkg/plugins/base.go:281-304 | any starts of other pods and hashes anywhere within a sweep leave the links and records of the sweep in one step followed by the starts |
| Interleaving.TwoPhasePassIsAtomic | pkg/plugins/base.go:258-304 | the same from the scan on, provided that no pod found gone starts again before the sweep ends |
| Interleaving.DroppedIsForgotten | pkg/plugins/base.go:300 | if the pass does drop the pod, what it has recorded since the scan goes with its old record, and every link it has made stays behind |
| Interleaving.StartAndPassCommuteIff | pkg/plugins/base.go:258-304 | when nothing fails, any start between scan and sweep comes out as after the pass if and only if its annotation cannot be read or neither its hash nor its pod is that of a container found gone |
| Interleaving.RestartDuringPass | pkg/plugins/base.go:281-304 | a pod found gone that comes back with the same ids gets a success that changes nothing, and the sweep then removes all its links and its record; with a pod not found gone the pass makes no difference |
| Steps.StartStepLeadsOn | pkg/plugins/gpushare.go:127-147 | every system call or transaction of a start leads to where the whole start does |
| Steps.CollectStepLeadsOn | pkg/plugins/base.go:281-304 | every system call or transaction of a pass leads to where the whole pass does |
| Steps.StepsCommute | pkg/plugins/base.go:281-304 | a call of a start and a call of a pass commute if they have no pod and no hash in common |
| Steps.InterleavedCallsAreAtomic | pkg/plugins/base.go:258-304 | one system call or transaction at a time, in any order and whatever fails, a finished pass and a finished series of starts of other pods and hashes leave the links and records of the whole pass followed by the whole starts |
| Steps.DroppedRecordReturnsIff | pkg/plugins/gpushare.go:144-146 | if a pass drops the record of a pod between a start's reading and writing it, the record comes back with what it had, which is as if the pass had come first if and only if there is no other container |
| Locking.NoLostUpdates | pkg/plugins/gpushare.go:144-147 | if calls of two plugins for one pod are for one container, then over every interleaving of any calls, at every moment the last device saved for a container is in its pod's record, and at most one call of a plugin is between taking its lock and returning |
| Locking.NoLostUpdatesIff | pkg/plugins/gpushare.go:260-262 | for calls that bring something new, no interleaving loses a saved device if and only if calls of two plugins for one pod are for one container |
| EndToEnd.AllocateStartAndFind | pkg/plugins/gpushare.go:77-147 | for either plugin and any order of the ids: GPU in the answer to Allocate is the hash under which the start makes its links, link i pointing at the annotation's card number i, and the hook that is given GPU finds exactly the annotated cards, when nothing fails and no link has the hash |

## Left out

- Api.SkipApi: lengths and indexes are unbounded integers, while the code's wrap around at 2^63. On every accepted input they agree; where the code refuses or panics because a sum has wrapped, the model reports an early end of input. Varint values themselves are reduced to 64 bits. The code panics on an empty slice, which it is never given.
- Api.ReadPiece: the head of the loop is repeated in the source in every Unmarshal and is one method here, with the message and the number of its fields as a parameter; an error carries the message and the field number instead of the field's name.
- Api.ListPodResourcesResponse.MarshalTo: a message that is nil as an element, the error that is always nil, and messages of 2^63 bytes or more are not modelled; a buffer and an offset stand for a slice of the buffer.
- Marshal, Size and MarshalTo of ListPodResourcesRequest write and count nothing.
- String methods, descriptors, sozApi and the gRPC stubs are formatting and library glue.
- A group's end tag is not compared with its start tag, in the code as in the model, although section "Groups" of the Protocol Buffers encoding specification asks for equal field numbers.
- Devices.SortCanonical: sort.Strings is modelled by its result, which every sorting algorithm has, on a value; the copy that NewDevice takes first, so as not to reorder its caller's slice, is not.
- SHA-256 is an arbitrary function of the joined text. That it has eight characters, and that recorded containers have different hashes, are hypotheses of the lemmas that need them.
- The JSON form of a record is a pair of inverse functions, and an absent map is not distinguished from an empty one.
- Storage.BoltStorage.Load: reading the database never fails; only transactions that write do. That the database refuses an empty key is left to the environment.
- Links.GPUShareOperator.Create: every link target exists, so that a link that is there is found there; names other than links are never in the way. /host/dev and /dev are one directory.
- Hook.FindGPUIndexes: a link target that the code cannot index makes it panic and is excluded; the agent's own links are shown never to be such. Reading the directory and the link does not fail.
- PreStart.GPUShareDevicePlugin.PreStartContainer: both plugins' methods are one, with the resource as a parameter. The located owner is an answer of the environment here, and the subject of module Locator.
- Gc.GPUSharePlugin.Scan: the store must hold records of plainly named pods only, so that the iteration does not stop in the middle; the informer and the API server do not change their minds during a scan; when the timer or the channel sets off a pass is not modelled. That a bucket hands on each key once is the database's promise.
- Lifecycle.RunsKeepInvIff: no system call or transaction fails during the run; failures are the subject of Gc.PassIsSafe, Failures.RecordGoesLastIff and Lifecycle.UnsavedStartKeepsInvIff.
- Lifecycle.CollectKeepsLinksIff: containers of gone pods that share a hash are left to Failures.CollectKeepsLinksAloneIff, for pods with one container each; with several containers the outcome depends on the order of the lines.
- Service.HookAlongHistory: passes whose lines have the hash are excluded even where they are stuck before they get to it.
- Locking.NoLostUpdatesIff: a call that brings the very device that is on record may lose nothing when it is overwritten with that record, and is excluded; the garbage collector is idle, as it takes no lock, and the database transaction is one step. The links are not part of this state machine.
- Interleaving.TwoPhasePassIsAtomic: what the scan sees is decided at one moment. For several starts in one schedule the condition is sufficient; for one start it is exact in PassCommutesIff and StartAndPassCommuteIff.
- Steps.InterleavedCallsAreAtomic: the starts are those of one plugin, which its lock puts one after the other; starts of two plugins at once are the subject of Locking.NoLostUpdatesIff.
- EndToEnd.AllocateStartAndFind: the owner that the locator finds is an answer of the environment; starts that meet a failure, and hashes that have links already, are left to Service.HookAlongHistory and Service.LaterStartGetsOldCards.
- KubeletDeviceLocator.List, the commented-out Nvidia plugin, the inventory by NVML, the serving and restarting of the plugins, tools/mount_elastic_gpu.c and the loading of the container's specification by the hook are wiring.
- The unit tests in pkg/storage/storage_test.go call Delete with a record where the code takes a namespace and a name; the model follows the code.
