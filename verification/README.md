# Verified model of the Venus codec generator, the executor generator and their neighbours

A Dafny 4.11 project. It models the code of this repository whose correctness does not show in
any one function, and proves what that code is for. `dafny verify dfyconfig.toml` checks all of it.

| file | models |
|---|---|
| `Wire.dfy`, `Schema.dfy`, `Codec.dfy` | what the generated Venus encoders and decoders do, for every registry the generator accepts: structures, unions, pNext chains, arrays sized by other members, two-level arrays, skeletons of uninitialised outputs |
| `Delivery.dfy`, `RoundTrip.dfy`, `Typing.dfy`, `Exactness.dfy`, `Acceptance.dfy`, `Framing.dfy` | what a receiver ends up with, said on values alone; that decoding an encoding gives exactly that; which values encode; which survive unchanged; what becomes of any byte string the decoder accepts, and where decoding stops |
| `Commands.dfy` | commands, in/out marking and replies: the whole exchange between guest and host |
| `Graphs.dfy`, `Passes.dfy`, `Groups.dfy`, `SortMembers.dfy` | the generator's passes: ordered closure, saturation, worklist, zero width, pruned link walk, partition into files, member order |
| `LenExpr.dfy`, `LenText.dfy` | arithmetic array lengths: parsed, printed as Rust, read back |
| `Gates.dfy`, `Admission.dfy`, `Translate.dfy` | the executor generator: `depends` expressions, gated values and masks, the walk that turns guest ids into host handles |
| `Views.dfy`, `Visibility.dfy`, `LinkView.dfy`, `Device.dfy` | where that walk looks, which handles and which links it cannot see, and what it lets through on a device |
| `Executor.dfy` | one command on the host, from the guest's bytes to the reply the guest reads |
| `PauseGate.dfy` | the vCPU pause gate over all interleavings |
| `Checksum.dfy`, `Presenter.dfy`, `Artifact.dfy`, `Cpio.dfy`, `Grub.dfy` | the internet checksum, the framebuffer presenter, the verified download cache, the cpio writers, the GRUB typing script |

How to read the codec. A `Registry` is the list of types in closure order. A `Value` is a tree. Each
field has a `Shape` and, in a given message, a `Treatment`: sent whole, in part, not at all, or not
touched. `EncX` and `DecX` follow the emitted code case by case; `None` is a refusal. `ArriveX` says,
without bytes, what the other side gets: an empty array becomes null, an ignorable array whose
condition is false is dropped, a stride becomes the element size, strings end at their first NUL, a
skeleton keeps lengths and handles. The codec functions are total: a value that does not have the
field's type is refused, which stands for what Rust's types rule out.

The main results:

- `Typing.StructRoundTrip`: for every accepted registry, structure, mode, depth, value and trailing
  bytes: exactly the well-typed values encode, and decoding gives exactly what `Delivery` says and
  leaves exactly the trailing bytes. `Exactness.ExactTrip` adds that the very same value comes back if
  and only if it is in normal form. `Acceptance.AcceptedSurvives` and `AcceptedCommand` start from the
  bytes instead: whatever structure, skeleton or command the decoder accepts.
- `Executor.Round`: guest encode, host decode, the screen of every link, translation on a device, any
  outputs of the host call, reply encode and guest decode. The guest ends with the host's outputs and its
  own inputs, exactly so if and only if the reply is in normal form. `Executor.AdmitsExactly` says
  which commands the host takes.
- `PauseGate.RunKeeps`, `PauseReturns` and `StaysFrozen`: over every interleaving of one coordinator and
  any number of vCPUs, a returned pause is a consistent snapshot and nothing runs until resume;
  `Completes` and `Drains` say the gate never jams.
- `Gates.DependsMeans`, `Admission.EnumCheck`, `Admission.FlagCheck`: from the text of a `depends`
  attribute to the emitted predicate, with the meaning kept for every set of enabled extensions.
- `Device.TranslatesOnDevice`: the handle walk succeeds exactly when it should, asks for every handle
  once, in order, with its own kind, changes nothing else, and every link in view is core, the
  protocol's own or enabled. Unions and two-level arrays are passed over, so what holds of all handles
  and all links depends on the schema. `Visibility.SeesExactly` is the exact condition under which no
  handle is missed, and `Device.TightOnDevice` the one under which a value the walk accepts has no link
  that is not served. `Visibility.HiddenHandle` and `Device.HiddenLink` are inputs that fail them: the
  second passes the executor's screen of every link, because the policy admits the extension, and the
  device did not enable it.
- `Presenter.Run`: over any run of passes, what is sent for each frame and that it leaves the whole
  picture on the display.

Where the code and its comments differ the code is followed. `LenText.ConstRefused` records one such
place: a constant length such as `4 + 0` has a value and is refused, because all four operator results
are computed before one is chosen; `LenText.ConstExact` gives the exact condition. `Cpio.TrailerHides`
is another: an archive comes back whole unless one of its files is named `TRAILER!!!`, and
`Cpio.ArchiveExact` says so exactly. The member reordering is a third: it is there to put every length
before its array, and does not for a length read through a pointer (`SortMembers.PointerLate`) or one that
is sized itself (`SortMembers.SizedLate`); `SortMembers.CountsBound` is the exact condition. The registries
the codec is proved for have every length first.

## Model

| member | source | states |
|---|---|---|
| `Wire.GetPutScalar` | crates/virtio-gpu/src/venus/wire.rs:592-730 | a scalar of 1, 2, 4 or 8 bytes read from the slot it was written to is the scalar, and exactly the slot is consumed |
| `Wire.GetPutBlob` | crates/virtio-gpu/src/venus/wire.rs:773-787 | a run of bytes padded to four is read back without its padding |
| `Wire.GetPutString` | crates/virtio-gpu/src/venus/wire.rs:802-839 | a written string is read back cut at its first NUL, in step with the stream |
| `RoundTrip.ElemTrip` | tools/venus-protocol/rust_protocol.py:1244-1278 | decoding an encoded element gives what `Delivery` says, with the rest of the stream unread |
| `RoundTrip.UnionTrip` | tools/venus-protocol/rust_protocol.py:1581-1617 | a union is its tag and the member the tag selects, and comes back as that member |
| `RoundTrip.StructTrip` | tools/venus-protocol/rust_protocol.py:1507-1577 | whatever a structure encodes to, whole or as a skeleton, decodes to exactly the delivered value and is consumed exactly, and is refused exactly when delivery is; which values encode is `Typing.StructEncodes` |
| `RoundTrip.ChainTrip` | crates/virtio-gpu/src/venus/wire.rs:1104-1137 | a pNext chain, markers front to back and bodies back to front, is read back in order, each link at its own depth |
| `RoundTrip.LinksTrip` | crates/virtio-gpu/src/venus/protocol/mod.rs:939-987 | a chain is accepted exactly when it repeats no structure and stays within the depth limit |
| `RoundTrip.FieldsTrip` | tools/venus-protocol/rust_protocol.py:1507-1547 | the members of a structure or the parameters of a command decode in order, each count read from what was already decoded or kept |
| `RoundTrip.FieldTrip` | tools/venus-protocol/rust_protocol.py:1306-1483 | one field, of any shape under any treatment the generator emits, decodes to what `Delivery` says |
| `RoundTrip.DynTrip` | tools/venus-protocol/rust_protocol.py:1352-1386 | a counted array: its length is its presence, an empty one arrives null, one of widthless elements arrives by count alone |
| `RoundTrip.NestedTrip` | tools/venus-protocol/rust_protocol.py:1370-1381 | a two-level array comes back row by row, each row as long as its own count |
| `RoundTrip.StrArrayTrip` | crates/virtio-gpu/src/venus/protocol/mod.rs:794-818 | an array of strings comes back string by string |
| `RoundTrip.StaticTrip` | crates/virtio-gpu/src/venus/protocol/mod.rs:820-862 | a fixed array comes back whole, a character array with its last byte NUL |
| `RoundTrip.PtrTrip` | tools/venus-protocol/rust_protocol.py:1330-1351 | an optional pointer comes back null or with its target; a required one that is null is refused |
| `RoundTrip.CountKept` | tools/venus-protocol/rust_protocol.py:1177-1212 | every count, direct, through a pointer, arithmetic or per element, reads the same on both sides |
| `RoundTrip.PlanReadable` | tools/venus-protocol/vn_protocol.py:1220-1237 | in a skeleton every length is sent whole and before the array it sizes |
| `RoundTrip.ZeroWidthEmpty` | tools/venus-protocol/rust_protocol.py:871-889 | a structure marked zero-width has no bytes in its skeleton, whatever its value |
| `RoundTrip.StructWide` | crates/virtio-gpu/src/venus/wire.rs:1046-1084 | any other structure has at least the four bytes the decoder charges an element with |
| `Typing.StructEncodes` | tools/venus-protocol/rust_protocol.py:1401-1483 | a structure encodes if and only if its value is of the type: scalars fit, arrays sent are as long as their counts, a union holds the selected member, links are in the chain and have none of their own |
| `Typing.FieldEncodes` | tools/venus-protocol/rust_protocol.py:1401-1483 | the same for one field under any treatment; nothing is asked of what is not sent |
| `Typing.StructRoundTrip` | tools/venus-protocol/rust_protocol.py:1401-1577 | for every accepted registry and every value at all: exactly the well-typed ones encode, and each of those decodes to exactly the delivered value with the rest of the stream unread |
| `Typing.CommandEncodes` | tools/venus-protocol/rust_protocol.py:1712-1724 | a command encodes if and only if its inputs are well typed and its outputs give what a skeleton needs |
| `Typing.ReplyEncodes` | tools/venus-protocol/rust_protocol.py:1729-1743 | a reply encodes if and only if the return value and the outputs are well typed |
| `Typing.Exchange` | tools/venus-protocol/rust_protocol.py:1685-1758 | for a well-typed command the host does not refuse, its inputs kept but for translated handles, and any well-typed outputs: both messages encode, the host reads the command as delivered and the guest the reply |
| `Exactness.StructKept` | tools/venus-protocol/rust_protocol.py:1507-1577 | a structure, whole or as a skeleton, is delivered unchanged if and only if it is in normal form |
| `Exactness.FieldKept` | tools/venus-protocol/rust_protocol.py:1306-1483 | the same for one field under any treatment: null or non-empty arrays, sent only while their condition holds, strides equal to the size, NUL-free strings, required pointers present, defaults where nothing is filled in |
| `Exactness.ExactTrip` | tools/venus-protocol/rust_protocol.py:1401-1577 | for every value at all, whole or as a skeleton: it encodes and comes back exactly as it was, with the rest unread, if and only if it is well typed and in normal form |
| `Exactness.ExactCommand` | tools/venus-protocol/rust_protocol.py:1685-1724 | the same for the arguments of a command, which also must not have a null dispatch handle |
| `Exactness.DriverKept` | tools/venus-protocol/rust_protocol.py:1306-1386 | an output is read from a reply unchanged if and only if it is in normal form, where a null pointer is, required or not |
| `Exactness.ExactExchange` | tools/venus-protocol/rust_protocol.py:1685-1758 | for every well-typed command the host does not refuse, its inputs kept but for translated handles, and every well-typed reply: the guest ends with exactly the host's return value and outputs and its own inputs if and only if those are in normal form |
| `Acceptance.StructGot` | tools/venus-protocol/rust_protocol.py:1507-1547 | whatever bytes a structure or its skeleton is decoded from, its value is well typed and in normal form if and only if each ignorable array that is filled in is present exactly when its condition holds and something is counted |
| `Acceptance.AcceptedSurvives` | tools/venus-protocol/rust_protocol.py:1306-1483 | for every byte string the decoder accepts, as a structure or as a skeleton, the value encodes again and comes back unchanged if and only if its ignorable arrays are in step with their conditions |
| `Acceptance.AcceptedCommand` | crates/virtio-gpu/src/venus/executor/checkpoint.rs:108-115 | for every byte string a command is decoded from, what the journal encodes is decoded to the same arguments if and only if their ignorable arrays are in step with their conditions |
| `Acceptance.IgnoredCondition` | tools/venus-protocol/rust_protocol.py:1473-1483 | a byte string the decoder accepts whose value is not: the array is there although its condition is false |
| `Framing.FieldsFramed` | tools/venus-protocol/rust_protocol.py:1306-1386 | for all bytes the members of a structure or command are decoded from: what is left is their end, and with more bytes behind them the same is decoded and the longer rest left |
| `Framing.CommandFramed` | crates/virtio-gpu/src/venus/executor/mod.rs:561-581 | the same for commands, so the position the ring advances by is that of the command, however much of the stream has arrived |
| `Framing.ReplyFramed` | tools/venus-protocol/rust_protocol.py:1745-1758 | the same for replies |
| `Commands.LengthSent` | tools/venus-protocol/vn_protocol.py:354-382 | an output that sizes an array is also an input, so every count is sent with the command and before its array |
| `Commands.CommandTrip` | tools/venus-protocol/rust_protocol.py:1685-1724 | the host reads a command's inputs as sent and its outputs as skeletons, or refuses for a null dispatch handle or a missing required parameter |
| `Commands.InputCounts` | tools/venus-protocol/rust_protocol.py:1745-1758 | a parameter the guest keeps gives the same count as the host's copy of it |
| `Commands.ReplyTrip` | tools/venus-protocol/rust_protocol.py:1729-1758 | for any outputs the host fills in, and whatever handles it put in place of the guest's in its inputs, the guest reads from the reply the host's return value and outputs, as delivered |
| `Commands.ReplyContents` | tools/venus-protocol/rust_protocol.py:1729-1758 | parameter by parameter: an input is the guest's own, an output the host's |
| `Graphs.Saturate` | tools/venus-protocol/rust_protocol.py:891-937 | the lifetime and chain-reach loops end with a type marked exactly when a path leads from it to a seed |
| `Graphs.Reachable` | scripts/venus-ash-gen.py:291-310 | the worklist ends with exactly what the roots reach |
| `Graphs.Closure.Visit` | tools/venus-protocol/rust_protocol.py:404-429 | one visit appends only types it reaches, members before holders, links included; it gives up only on a type below it that is refused, contains itself or is being visited |
| `Graphs.Closure.Close` | tools/venus-protocol/rust_protocol.py:404-438 | the closure lists exactly what the commands reach, once each, members first, none of it unserialisable, and fails only if something reached is unserialisable or contains itself |
| `Graphs.SmallerIndex` | tools/venus-protocol/rust_protocol.py:404-438 | numbered by their places in the closure, the types of members come before their holders, which is the order the codec's registries are in |
| `Passes.ElementsBelow` | tools/venus-protocol/rust_protocol.py:404-438 | in a registry numbered by the closure, every element a type holds is of a type with a smaller number, which is what the codec's decoders need to end |
| `Passes.MarkZeroWidth` | tools/venus-protocol/rust_protocol.py:871-889 | one pass in closure order marks exactly the zero-width structures |
| `Passes.ZeroWidthExact` | tools/venus-protocol/rust_protocol.py:1280-1282 | whatever value is sent, a skeleton is empty if and only if its structure is marked |
| `Passes.MarkLinks` | tools/venus-protocol/rust_protocol.py:917-937 | the chain pass marks exactly the types from which a chained structure can be reached |
| `Passes.PrunedWalk` | tools/venus-protocol/rust_protocol.py:1625-1681 | the link walk that skips unmarked types visits the same links in the same order as one that skips nothing, on every value |
| `Groups.AddTypes` | tools/venus-protocol/vn_protocol.py:1673-1686 | the recursive collection adds exactly what a type reaches and leaves a closed set |
| `Groups.Strip` | tools/venus-protocol/vn_protocol.py:1650-1655 | the inner loop takes from every later group what it shares with this one and puts it in the common set |
| `Groups.Partition` | tools/venus-protocol/vn_protocol.py:1647-1662 | in place, each group keeps exactly the types no other group has, and the common set gets exactly those two or more have |
| `Groups.DepsCovered` | tools/venus-protocol/vn_protocol.py:1688-1712 | what a placed type depends on is owned by the same group or by the common one |
| `Groups.Place` | tools/venus-protocol/vn_protocol.py:1688-1712 | the placement's assertion never fails; a type lands in its group or in the common one, only types a group owns are placed in it, whatever is placed and can be sent has its dependencies placed in the same group or the common one, and nothing is placed but what the type reaches through types that can be sent |
| `Groups.InitGroups` | tools/venus-protocol/vn_protocol.py:1630-1712 | collection, partition and placement one after another: each group gets exactly the types it alone needs, the last one those two or more need, no assertion fails, and a type is placed, in the group it belongs to, if and only if some command reaches it through types that can be sent |
| `Groups.OwnerAgrees` | tools/venus-protocol/rust_protocol.py:954-964 | on the same reach sets the Rust generator's owner rule gives the same home as the partition |
| `SortMembers.Sort` | tools/venus-protocol/vkxml.py:546-575 | for distinct names, the loop permutes the members if and only if none is its own length (unless moved before its turn), and then before each member stand exactly those listed by then: the members that had a turn before it and their lengths, and the lengths before it in the turn it is listed in |
| `SortMembers.BeforeIffInTime` | tools/venus-protocol/vkxml.py:546-575 | one member stands before another after the reordering if and only if, by the declared order, it is listed when the other is |
| `SortMembers.CountsBound` | tools/venus-protocol/rust_protocol.py:1507-1547 | in a structure laid out from reordered members, some of which become no field, no count reads a field that is decoded later, if and only if the member each count is read from, or through, is in time by the declared order |
| `SortMembers.FlatInTime` | tools/venus-protocol/vkxml.py:546-575 | where no length is sized itself, a member is in time for an array if and only if it is declared before it, or is a length, by its own name, of it or of a member declared before it |
| `SortMembers.PointerLate` | tools/venus-protocol/vkxml.py:561-563 | a structure it fails for: an array counted by `p->n` with `p` declared after it keeps its order, and the count reads a field that is decoded later |
| `SortMembers.SizedLate` | tools/venus-protocol/vkxml.py:570-573 | another: a length that is sized itself is moved to the front without its own length |
| `LenText.Reader.Sum` | tools/venus-protocol/rust_protocol.py:660-700 | the parser with a moving position computes the same as the parser on the tokens left |
| `LenText.ParsesLen` | tools/venus-protocol/rust_protocol.py:639-700 | every text of the grammar is read as its tree, and refused exactly when it divides by anything but a non-zero integer |
| `LenText.Accepts` | tools/venus-protocol/rust_protocol.py:679-688 | whatever token string is accepted, all its divisions are by non-zero integers |
| `LenText.ReadsRust` | tools/venus-protocol/rust_protocol.py:1214-1232 | the printed Rust expression, read with Rust's precedence, is the tree it was printed from |
| `LenText.LenSurvives` | tools/venus-protocol/rust_protocol.py:1177-1232 | from registry text to Rust and back the tree and its wrapping value are the same, and nothing divides by zero when the constants fit the width |
| `LenText.ConstExact` | tools/venus-protocol/rust_protocol.py:702-710 | a constant length is exact unless some right operand is zero, and then it is always refused |
| `LenText.ConstRefused` | tools/venus-protocol/rust_protocol.py:710-710 | `4 + 0` has a value and is refused |
| `Gates.Parser.Expr` | scripts/venus-exec-gen.py:250-287 | the parser with a moving position computes the same as the parser on the tokens left, for every token string |
| `Gates.ReadsExpr` | scripts/venus-exec-gen.py:250-287 | every expression of the grammar is read into its own normal form, up to the token that follows it |
| `Gates.MeansExpr` | scripts/venus-exec-gen.py:239-287 | the normal form holds on exactly the devices the expression does |
| `Gates.DependsMeans` | scripts/venus-exec-gen.py:239-287 | reading a whole `depends` text gives alternatives that hold exactly when the expression does, for every set of enabled extensions |
| `Admission.ReadGate` | scripts/venus-exec-gen.py:289-301 | the gate computed from the text of a block's `depends` by the parser is the block's gate |
| `Admission.GateMeans` | scripts/venus-exec-gen.py:289-301 | the gate of a block holds exactly when the device meets the block's extension and its `depends` |
| `Admission.Record` | scripts/venus-exec-gen.py:289-314 | a value is recorded with a gate exactly when a gated block adds it and core lacks it |
| `Admission.Ranges` | scripts/venus-exec-gen.py:327-335 | the ranges hold exactly the values, in order, none empty and no two touching |
| `Admission.Merge` | scripts/venus-exec-gen.py:528-534 | per value, exactly the conjunctions recorded for it |
| `Admission.Regroup` | scripts/venus-exec-gen.py:884-887 | each gate gets exactly the values that have it |
| `Admission.Arms` | scripts/venus-exec-gen.py:884-899 | the emitted `x_` predicate accepts exactly the recorded values with an enabled conjunction |
| `Admission.EnumCheck` | scripts/venus-exec-gen.py:555-589 | the check on an enumeration accepts exactly the core values and those of gated blocks the device meets |
| `Admission.MaskArms` | scripts/venus-exec-gen.py:900-912 | the `m_` mask has exactly the bits of recorded values with an enabled conjunction |
| `Admission.FlagCheck` | scripts/venus-exec-gen.py:545-597 | a flag word passes exactly when each of its bits is in a core value or in a value of a gated block the device meets and, for a member that names bits, it is not zero unless zero is a core value or the member optional |
| `Translate.TranslatesStruct` | scripts/venus-exec-gen.py:732-755 | a structure translates exactly when it is lawful and every call is answered; links are held to what is admitted; only handles change |
| `Translate.TranslatesField` | scripts/venus-exec-gen.py:601-661 | the same for one field, with lengths held to counts and scalars to their checks |
| `Translate.TranslatesFields` | scripts/venus-exec-gen.py:601-661 | the same for a record translated in place: the counts it is checked against are unaffected by the translation |
| `Visibility.SeesExactly` | scripts/venus-exec-gen.py:617-646 | over all value trees whose links come as far as the walk and are let through where it looks: it asks for every handle of the inputs, whatever their values, if and only if no union and no two-level array it comes by, through links it lets through, can hold a handle |
| `Visibility.MissedInCommand` | scripts/venus-exec-gen.py:617-646 | whatever lawful values a command has, an input that hides handles, a union, an array of them that is not empty or a two-level array, can be given one with a handle that is never asked for; its links pass the screen, and the command still translates as soon as the handles in view are answered |
| `Visibility.PlantedTranslates` | scripts/venus-exec-gen.py:617-646 | for every value such an input is given: the command translates as soon as the handles in view are answered, none of the value's handles is in view, and if it has one it is missed |
| `Visibility.FillingHides` | scripts/venus-exec-gen.py:617-646 | for every value such an input is given: all its links pass a test if and only if all links of the value do |
| `Visibility.HiddenHandle` | scripts/venus-exec-gen.py:645-646 | a union that holds a handle: the walk succeeds, asks for nothing and leaves the guest's id in place |
| `Visibility.SeesFields` | scripts/venus-exec-gen.py:617-646 | under that condition the handles asked for are all the handles, in order; out of view there are none |
| `Visibility.FieldWitness` | scripts/venus-exec-gen.py:617-634 | a field that hides handles, itself or further down, has a value tree with its links let through and a handle that is not asked for |
| `Visibility.TranslatesCommand` | scripts/venus-exec-gen.py:759-772 | under that condition a command's translation asks for every input handle once, in order, with its kind, puts each answer in its place, leaves the rest, and succeeds exactly when the inputs are lawful and every handle is answered |
| `LinkView.TightIn` | scripts/venus-exec-gen.py:637-646 | in a field that leads, through links the walk lets through, to no union and no two-level array that can hold a link it would refuse, every link of an accepted value is one it lets through |
| `LinkView.LeakIn` | scripts/venus-exec-gen.py:637-646 | any other field has a value tree whose links in view are let through and that holds one the walk would refuse |
| `LinkView.TightExactly` | scripts/venus-exec-gen.py:637-646 | over all value trees that come as far as the walk: those whose links in view are let through have all their links let through, if and only if no union and no two-level array the field leads to can hold one that would be refused |
| `Device.EmitArms` | scripts/venus-exec-gen.py:737-751 | the match emitted for a parent's links lets a structure through, on any device, if and only if the chain lists it and it is core, the protocol's own or enabled |
| `Device.LinkRule` | scripts/venus-exec-gen.py:468-526 | a link passes the emitted match if and only if its parent's chain lists it and it is core up to the served version, the protocol's own, or brought by an extension in scope that the device enabled |
| `Views.AdmitsInput` | scripts/venus-exec-gen.py:737-751 | every link of a lawful input outside unions and two-level arrays is admitted |
| `Views.SameLinks` | scripts/venus-exec-gen.py:732-755 | values that differ in handles only have the same links in the same places |
| `Device.TightOnDevice` | scripts/venus-exec-gen.py:637-646 | on a device, the values whose links all pass the policy's screen and are served where the walk looks have every link served, if and only if no union and no two-level array the field leads to can hold a link the policy admits and the device does not serve |
| `Device.AfterTranslation` | scripts/venus-exec-gen.py:732-772 | whatever its handles, a screened command that translates has every link admitted by the policy, every link in view served, and in a tight input every link served |
| `Device.TranslatesOnDevice` | scripts/venus-exec-gen.py:732-772 | on a device, for screened inputs that hide no handle: success exactly when the inputs are lawful and every handle is answered, and then every handle was asked for once, nothing else changed, every link in view is core, the protocol's own or enabled, and in a tight input every link is |
| `Device.HiddenLink` | scripts/venus-exec-gen.py:645-646 | a structure in a union whose chain holds a link of an extension the policy admits and the device did not enable: it passes the screen, no handle is hidden, and the walk lets it through |
| `Device.LinkSlips` | scripts/venus-exec-gen.py:637-646 | whatever lawful values a command has, an input that can hide a link that is not served can be given one: it passes the screen, the walk passes over it, and the command still translates as soon as the handles in view are answered |
| `Executor.ScreenedAll` | crates/virtio-gpu/src/venus/executor/context.rs:174-184 | the screen, which looks only into types the chain pass marks, asks the policy about every link of every parameter |
| `Executor.Admitted` | crates/virtio-gpu/src/venus/executor/context.rs:574-579 | a command that passes the screen and translates has, in its inputs, only links the policy admits, those in view served on the device, in a tight input all of them; handles aside it is what arrived |
| `Executor.AdmitsExactly` | crates/virtio-gpu/src/venus/executor/device_objects.rs:1865-1870 | with inputs that hide no handle, a command is taken exactly when every link of it is admitted, its inputs are lawful and every handle of theirs is answered, each asked for once, in order, its answer in its place |
| `Executor.ServesArrived` | crates/virtio-gpu/src/venus/executor/mod.rs:561-607 | the host takes the bytes of any well-typed command exactly when what the arguments arrive as passes the screen and translates, and goes on with that |
| `Executor.Round` | crates/virtio-gpu/src/venus/executor/mod.rs:561-614 | from the guest's arguments to the bytes, the host's decoding, screening and translation, its links admitted and served, any typed answer of its call, the reply and the guest's arguments after it: the host's outputs and the guest's own inputs, unchanged if and only if the reply is in normal form |
| `Device.EmitEnumCheck` | scripts/venus-exec-gen.py:555-589 | the check built from the registry's blocks for an enumerated field accepts, on every device, exactly the core values and those of gated blocks the device meets |
| `Device.EmitFlagCheck` | scripts/venus-exec-gen.py:555-597 | the check built for a flag word passes, on every device, exactly the words whose bits are core or of a gated block the device meets and that name a bit where they have to |
| `PauseGate.CpuGroup.Begin` | apps/entangled/src/macos_cpus.rs:31-48 | a pause begins only when the old gate is empty, and clears every capture, in place |
| `PauseGate.CpuGroup.Gather` | apps/entangled/src/macos_cpus.rs:49-62 | the captures are gathered once everyone is parked, or the first failure or missing one reported |
| `PauseGate.CpuGroup.Enter` | apps/entangled/src/macos_cpus.rs:80-90 | a vCPU records its capture and counts itself in, unless the request is gone |
| `PauseGate.CpuGroup.Wake` | apps/entangled/src/macos_cpus.rs:91-100 | a waiting vCPU leaves exactly when the request is gone or the group stops |
| `PauseGate.StepKeeps` | apps/entangled/src/macos_cpus.rs:31-131 | every step of every thread keeps the invariant |
| `PauseGate.RunKeeps` | apps/entangled/src/macos_cpus.rs:31-131 | in every state of every run `parked` is the number of threads in the gate, and a parked thread's capture is its live state, taken since the current pause began |
| `PauseGate.NoUnderflow` | apps/entangled/src/macos_cpus.rs:91-100 | `parked` is positive whenever a thread is about to leave |
| `PauseGate.PauseReturns` | apps/entangled/src/macos_cpus.rs:49-62 | when a pause returns, every vCPU is in the gate, no capture is missing, each was taken in this pause, and unless one failed the result is the live states |
| `PauseGate.StaysFrozen` | apps/entangled/src/macos_cpus.rs:72-131 | from there until the next resume no vCPU is in the guest and no vCPU state changes, whatever stops, failures, further pauses or timeouts happen |
| `PauseGate.StopIsFinal` | apps/entangled/src/macos_cpus.rs:346-366 | after a stop no thread outside the guest enters it again |
| `PauseGate.Drains` | apps/entangled/src/macos_cpus.rs:72-100 | once the request is withdrawn or the group stops, the parked threads can leave one after another until the gate is empty, so the next pause can begin |
| `PauseGate.Completes` | apps/entangled/src/macos_cpus.rs:49-100 | a pause under way can be completed from every reachable state in which the group is not stopped and no thread has failed |
| `Checksum.Compute` | fuzz/fuzz_targets/usernet_frames.rs:190-212 | the checksum of any split into runs is that of the concatenation (RFC 1071 section 1), and fails exactly when the sum exceeds 32 bits |
| `Checksum.OverflowBound` | fuzz/fuzz_targets/usernet_frames.rs:190-207 | no input of up to 131074 bytes overflows, and of every greater length some input does |
| `Checksum.FoldMeans` | fuzz/fuzz_targets/usernet_frames.rs:208-211 | the end-around carry is the remainder modulo 65535, with 65535 for a non-zero multiple |
| `Checksum.Completes` | fuzz/fuzz_targets/usernet_frames.rs:167-185 | filling an aligned empty field with the checksum makes the whole verify to 0xffff |
| `Checksum.Datagram` | fuzz/fuzz_targets/usernet_frames.rs:154-188 | the built datagram's header verifies (RFC 791 section 3.1), and its transport checksum too when asked for and there is room; all other bytes are the header fields and the payload |
| `Presenter.ChangedRows` | apps/entangled/src/framebuffer_present.rs:200-213 | the band starts and ends with a row that differs and holds every row that does; everything if the sizes differ |
| `Presenter.Frame.Adopt` | apps/entangled/src/framebuffer_present.rs:168-178 | a mode change resizes the display or leaves all as it was, and forgets what was sent |
| `Presenter.Frame.Update` | apps/entangled/src/framebuffer_present.rs:187-196 | what is sent is exactly the rows of the band, from the first row that differs from what is shown to the last, or the whole frame if nothing counts as sent; nothing is sent on failure |
| `Presenter.Frame.Present` | apps/entangled/src/framebuffer_present.rs:157-197 | a frame succeeds exactly when the resize it needs works, every row can be read and a needed update works; then the display shows every visible row of video memory, opaque, and exactly the minimal band was sent, or the whole frame if nothing counted as sent; on failure nothing is sent and what was sent is still what is shown |
| `Presenter.OnePass` | apps/entangled/src/framebuffer_present.rs:114-148 | one pass of the loop: a hand-over or an idle pass sends nothing; a frame succeeds exactly when it should and sends one band, the minimal one if the mode's last picture is still shown and all rows if not; a frame that fails sends nothing and leaves the display as it was or as a resize left it; what the presenter then keeps is said for every outcome |
| `Presenter.Run` | apps/entangled/src/framebuffer_present.rs:114-148 | over any run of passes, hand-overs to virtio-gpu, mode changes and failed resizes included, all of that holds of every pass, and what was sent in all is what the passes sent, in order |
| `Artifact.Sanitize` | apps/entangled/src/artifact.rs:146-161 | a name becomes one of the same length, of safe characters, without `..` |
| `Artifact.SanitizeAgain` | apps/entangled/src/artifact.rs:146-161 | sanitising again changes nothing |
| `Artifact.KeepsClean` | apps/entangled/src/artifact.rs:146-161 | a name is its own cache entry if and only if its characters are safe and it has no `..`, so distinct such names never share one |
| `Artifact.UncleanCollides` | apps/entangled/src/artifact.rs:146-161 | any other name shares its entry with a different, clean name |
| `Artifact.Stream` | apps/entangled/src/artifact.rs:343-376 | succeeds exactly when nothing fails within the pinned size, with exactly the bytes received; never more than the pinned size is stored, whatever the transport sends |
| `Artifact.DownloadVerified` | apps/entangled/src/artifact.rs:314-396 | succeeds exactly when the download starts, is received, written and renamed and has the pinned digest, and then those bytes are at the path; every exit leaves the files otherwise as they were, without the partial one |
| `Artifact.FetchInto` | apps/entangled/src/artifact.rs:220-305 | succeeds exactly when every asset is cached or its download verifies and the notes needed can be written, and then all match and exactly what was not cached was downloaded; every exit leaves each asset its old bytes or bytes matching the pin, a partial file only where one was and nothing was downloaded, and every other path untouched; offline downloads nothing; no download stores more than the pinned size, and after success each stored exactly its file |
| `Artifact.FetchTwice` | apps/entangled/src/artifact.rs:220-305 | a second fetch right after a successful one downloads nothing but what cannot be read back, and succeeds if everything can |
| `Cpio.Archive.Pad4` | apps/entangled/src/install.rs:708-712 | the buffer is padded with zeros to the next multiple of four |
| `Cpio.Archive.WriteEntry` | apps/entangled/src/install.rs:671-698 | an entry's exact bytes are appended to an aligned archive, which stays aligned |
| `Cpio.Archive.WriteAll` | apps/entangled/src/install.rs:640-656 | writing a list of files and the trailer leaves exactly the archive's bytes in the buffer, from which the reader recovers them |
| `Cpio.EntryTrip` | apps/entangled/src/install.rs:671-698 | a newc reader recovers the entry and the rest of the archive |
| `Cpio.ArchiveTrip` | apps/entangled/src/install.rs:671-712 | a newc reader recovers exactly the entries of any archive, in order, up to one that is named like the trailer |
| `Cpio.ArchiveExact` | apps/entangled/src/install.rs:671-712 | it recovers all of them if and only if none is named `TRAILER!!!` |
| `Cpio.TrailerHides` | apps/entangled/src/install.rs:704-706 | a file of that name hides itself and everything after it |
| `Cpio.PythonAgrees` | scripts/build-arm64-smoke.py:48-55 | entry-relative padding puts names and data at the same aligned offsets, and the reader recovers the entry |
| `Grub.GrubScript.Step` | apps/entangled/src/install_ubuntu.rs:643-667 | one step types `c`, the next command or nothing, and advances accordingly |
| `Grub.TypesPrefix` | apps/entangled/src/install_ubuntu.rs:643-667 | over every sequence of logs the typed keys are a prefix of `c` and the commands in order |
| `Grub.SilentBeforeMenu` | apps/entangled/src/install_fedora.rs:564-572 | nothing is typed while no log has shown the menu |
| `Grub.CommandNeedsPrompt` | apps/entangled/src/install_fedora.rs:573-588 | command k goes out only on a log with at least k + 1 prompts, after a log with the menu |
| `Grub.StaysReady` | apps/entangled/src/install_ubuntu.rs:656-662 | a line that is ready stays ready as the log grows |
| `Grub.Advances` | apps/entangled/src/install_ubuntu.rs:643-667 | once a log has shown the menu and the log has prompts enough, each further log brings the next command |
| `Grub.TypesAll` | apps/entangled/src/install_ubuntu.rs:643-667 | after the menu, prompts enough and as many logs as commands, exactly `c` and all the commands have been typed |

## Left out

- The decoder's allocation budget and its pool, and the encoder's length limit: resource policy beside the wire format.
- Error kinds: every refusal is one `None`; which error is reported, and the poisoning of a decoder after it, are not modelled.
- Signed integers and floats are bit patterns of their width.
- Counts that name a stride member or an ignorable array are not part of the accepted registries.
- `Shape.Dyn` stands for counted arrays and for both kinds of blob; whether a blob is borrowed or owned shows only in the translation walk, which does not check the length of an owned one.
- RoundTrip.LinksTrip: the identity of the refused link is not stated, only that the chain is refused.
- Groups.Place: the order of the lists it fills is not modelled, only the sets.
- Groups.InitGroups: the last group of the source has no commands of its own and is the common set here; which command matches which group is given.
- Groups.AddTypes: a rank on types stands for the registry having no type cycle; on a cycle the source does not return.
- Visibility.SeesExactly: ranges over all value trees; that a tree with a missed handle is lawful is stated by `MissedInCommand`, for inputs that hide handles themselves, because lawfulness further down depends on the checks of the other fields.
- Visibility.MissedInCommand: the value it gives is a tree with null members, which no decoder delivers, because a type may have no value one does; `PlantedTranslates` is about every value, and `HiddenHandle` is an input that is delivered.
- Device.LinkSlips: likewise; `Visibility.FillingHides` is about every value, and `Device.HiddenLink` is an input that is delivered.
- LinkView.TightExactly: ranges over all value trees; `Device.LinkSlips` is about lawful values. The trees of both conditions are ones in which a link may have a chain of its own, which no decoder delivers.
- Device.TightOnDevice: likewise.
- Executor.Round: hand-written commands, which do more than translate and call, and the hand-written check on structures of emulated extensions are not modelled; the host call is any answer of the right types.
- Acceptance.AcceptedCommand: the command's header, opcode and flags, is not part of the bytes; the plans the generator refuses to emit are excluded.
- Admission.ReadGate: the `depends` text is the token string of an expression; splitting it into tokens is not modelled.
- Artifact.FetchInto: removal of a partial file is taken to succeed and pins to be in lower case; the text of the provenance note, tokens and URL selection are not modelled.
- Admission.EnumCheck: the list of core values is given twice, as a set and as the sequence the ranges are built from.
- Device.TranslatesOnDevice: which handles may be null and which blobs are held owned are tables by type and field.
- PauseGate.PauseReturns: a timeout is a step that may happen at any moment; kicks, wake-ups and PSCI power state only decide when steps happen.
- Presenter.Run: a failed display call changes nothing, and virtio-gpu touches the display only in a pass that sees it bound.
- Cpio.PythonAgrees: lengths of 2^32 and more, which would widen the Python writer's fields, are excluded by `EntryOk`.
- Regular expressions, XML parsing, Mako templates and the text of the emitted Rust, except for length expressions.
- Driver calls and arena pointers of the executor's host side.
- The other fuzz targets, the installers' profiles and media lookup, packaging and signing: no property that spans operations.
