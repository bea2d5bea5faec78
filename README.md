# Rust-for-Linux verification fork: macro parser, misc devices, semaphore sample, I/O vectors

This project models four sequential pieces of a Rust-for-Linux tree prepared
for verification, and proves properties of the model in Dafny.

- **The `module!` procedural macro** (`rust/module.rs`).
  - `tokens.dfy` covers the token-stream helpers (`try_*`, `expect_*`, `get_literal`, `get_byte_string`).
  - `modinfo.dfy` covers:
    - the `.modinfo` string builders;
    - `permissions_are_readonly`;
    - the `param_ops_path` table.
  - `module_params.dfy` covers:
    - a parameter's type (`expect_type`, `expect_array_fields`);
    - its `default:` entry (`get_default`, including the array collector);
    - `generated_array_ops_name`.
  - `module_info.dfy` covers the `ModuleInfo::parse` loop, both as a method and as a specification function. It also describes the declarations the loop accepts without the loop (`WellFormed`, `Render`, `InfoOf`). `InfoOf` stores byte-string values through `StoreByteString`, the same helper the loop's `ReadValue` uses, so that one step is shared rather than restated.
  - A macro panic is an `Err(MacroPanic)`, one constructor per panic message or failed `assert_eq!`.
  - A token iterator is the sequence of tokens it has yet to produce.
- **Misc-device registration** (`rust/kernel/miscdev.rs`, in `miscdev.dfy`).
  - `Registrations<T>` is the fixed four-slot mock registry: an array and a counter.
  - `Registration<T>` is the one-shot register state machine.
- **The counting-semaphore sample** (`samples/rust/rust_semaphore.rs`, in `rust_semaphore.dfy`).
  - The `SemaphoreInner` state (`count`, `max_seen`) and the per-file `read_count`.
  - `consume`, the `read`/`write` file operations, and the two ioctls.
  - A condition-variable wait is a `WaitEvent`: interrupted by a signal, or woken, in both cases after the bytes other files wrote meanwhile.
- **The `IovIter` I/O-vector adapter** (`rust/kernel/iov_iter.rs`, in `iov_iter.dfy`).
  - The iterator's `count`, `len`, `clear`, `write_raw` and `read_raw`.
  - The C helpers become oracle answers: the byte counts they report. An answer is never more than was asked, and never more than the iterator spans.

Shared pieces:
- `wrappers.dfy`: `Option`/`Result`.
- `errno.dfy`: the kernel error codes and the machine-integer bounds.
- `numbers.dfy`: `from_str_radix`, decimal formatting, and bitwise `&` on unsigned integers.

Source and documentation agree on the behaviour modelled here, with three exceptions:
- The documented mutual exclusion of `alias` and `alias_rtnl_link` (rust/module.rs:459) is not enforced by the parser. The model follows the parser: the later key overwrites `alias`.
- `try_byte_string` accepts the two-character literal `b"` at its prefix and suffix tests, and then panics on the slice `[2..1]`. The model keeps that panic (`ByteStringSliceOutOfRange`), although a Rust lexer never produces such a literal.
- `misc_register` is commented out in `register`, and its return code is replaced by 0. The model takes the code as a parameter, so the error branch can be stated. `RegisterTwice` shows the behaviour with the value 0.

## Model

| member | source | states |
|---|---|---|
| Tokens.TryIdent | rust/module.rs:14-20 | consumes one token; yields its name exactly when it is an identifier |
| Tokens.TryLiteral | rust/module.rs:22-28 | consumes one token; yields its text exactly when it is a literal |
| Tokens.ByteStringContent | rust/module.rs:30-38 | a literal text yields `Some(content)` exactly when it is `b"` + content + `"`, in which case the content is the text between the quotes; only the text `b"` panics |
| Tokens.TryByteString | rust/module.rs:30-38 | consumes one token; yields `Some(c)` exactly when the token is the byte-string literal `b"c"`, `None` for any other token or the end; it panics exactly on the literal `b"` |
| Tokens.ExpectIdent | rust/module.rs:40-42 | succeeds exactly on an identifier, yielding its name and the rest; otherwise the `Expected Ident` panic |
| Tokens.ExpectPunct | rust/module.rs:44-50 | succeeds exactly on a punctuation token, yielding its character |
| Tokens.ExpectPunctChar | rust/module.rs:352 | `assert_eq!(expect_punct(it), c)` succeeds exactly when the next token is the punctuation `c` |
| Tokens.ExpectLiteral | rust/module.rs:52-54 | succeeds exactly on a literal, yielding its text |
| Tokens.ExpectGroup | rust/module.rs:56-62 | succeeds exactly on a group, yielding it |
| Tokens.ExpectByteString | rust/module.rs:64-66 | succeeds exactly on a byte-string literal, yielding its content |
| Tokens.ExpectEnd | rust/module.rs:100-104 | succeeds exactly at the end of the stream |
| Tokens.GetLiteral | rust/module.rs:106-112 | accepts exactly `name : <literal> ,` and yields the literal's text and the tokens after the comma |
| Tokens.GetByteString | rust/module.rs:114-120 | accepts exactly `name : b"…" ,` and yields the content between the quotes |
| Tokens.GetByteStringRoundTrip | rust/module.rs:114-120 | any content written as `name : b"content" ,` reads back as that content |
| Modinfo.Utf8Len | rust/module.rs:155 | the UTF-8 length of a string is between its character count and four times it |
| Modinfo.Utf8LenAscii | rust/module.rs:155 | an ASCII string's byte length is its character count |
| Modinfo.Utf8LenAppend | rust/module.rs:155 | byte length is additive over concatenation |
| Modinfo.BuildModinfoStringBase | rust/module.rs:122-158 | the static keeps the built-in/loadable flag and variable; its string is `module.field=content` when built in and `field=content` otherwise; its declared length is that string's byte length plus one for the NUL |
| Modinfo.BuildModinfoString | rust/module.rs:160-187 | two statics, built-in first, both named `__module_field`; the built-in string is the loadable one prefixed by `module.` |
| Modinfo.BuildModinfoStringOptional | rust/module.rs:189-195 | no statics exactly for an absent value; otherwise those of `build_modinfo_string` |
| Modinfo.BuildModinfoStringParam | rust/module.rs:197-207 | two statics named `__module_field_param`; the loadable string is `field=param:content`, the built-in one the same under `module.` |
| Modinfo.ModinfoEntryRoundTrip | rust/module.rs:132-139 | a `tag=value` string with no `=` in the tag splits back into tag and value at its first `=` |
| Modinfo.ModinfoStringReadsBack | rust/module.rs:184-187 | both strings of `build_modinfo_string` read back as (`field`, content) and (`module.field`, content) |
| Modinfo.ModinfoParamReadsBack | rust/module.rs:197-207 | a parameter's loadable string reads back as (`field`, `param:content`) |
| Modinfo.RadixAndDigits | rust/module.rs:210-218 | the radix is 16 exactly for a `0x` prefix, 8 exactly for `0o`, 2 exactly for `0b`, and 10 otherwise; the digits are the text after the prefix, or the whole text in decimal |
| Modinfo.PermissionsAreReadonly | rust/module.rs:209-223 | true exactly when the text parses as a `u32` in the radix its prefix picks and bits 1, 4 and 7 (`0o222`) are all clear; false when it does not parse |
| Modinfo.WriteBitsMask | rust/module.rs:220 | `p & 0o222 == 0` exactly when bits 1, 4 and 7 of `p` are clear |
| Modinfo.ParseOctalMode | rust/module.rs:212-219 | a three-digit `0o` literal parses to its octal value |
| Modinfo.ReadonlyOctalMode | rust/module.rs:209-223 | a mode `0oUGO` is read-only exactly when none of the three digits has its write bit (value 2) set |
| Modinfo.ParamOpsPath | rust/module.rs:225-241 | yields a path exactly for the 12 supported type names; any other name panics as unrecognized |
| Modinfo.ParamOpsPathUpper | rust/module.rs:225-241 | every supported type maps to `kernel::module_param::PARAM_OPS_` followed by its name upper-cased |
| Modinfo.AsciiUpper | rust/module.rs:227-238 | upper-casing keeps the length and maps each character on its own |
| ModuleParams.ExpectArrayFields | rust/module.rs:74-84 | accepts exactly `< ident , literal >` with a literal that parses as a `usize`, yielding the element type and length |
| ModuleParams.ExpectType | rust/module.rs:86-98 | `ArrayParam` starts an array type; any other identifier is a scalar type; no token or a non-identifier panics |
| ModuleParams.ExpectTypeArrayRoundTrip | rust/module.rs:74-98 | `ArrayParam<vals, n>` with `n` printed in decimal reads back as that array type, for every `usize` `n` |
| ModuleParams.GeneratedArrayOpsNameInjective | rust/module.rs:302-308 | two lengths with one element type get the same ops name only when the lengths are equal |
| ModuleParams.TryParamVal | rust/module.rs:243-254 | consumes one token; `bool` takes an identifier, `str` a byte string (as `StringParam::Ref(b"…")`), every other type a literal's text |
| ModuleParams.ArrayDefaultsAsWritten | rust/module.rs:274-284 | the array collector as written: no tokens give no values, and every value but the last takes its own token and a `,` |
| ModuleParams.CollectArrayDefaults | rust/module.rs:274-284 | the `while let` loop, which stops when `try_param_val` yields nothing, computes `ArrayDefaultsAsWritten` |
| ModuleParams.ArrayDefaultsAsWrittenCons | rust/module.rs:277-281 | as written, a literal followed by `,` is collected in front of the values after the `,` |
| ModuleParams.ArrayDefaultsTruncate | rust/module.rs:277-284 | as written, the literals before the first token that is not a literal are kept, and that token and everything after it are dropped without a panic |
| ModuleParams.ArrayDefaultsRoundTrip | rust/module.rs:274-295 | literal values separated by `,`, with or without a trailing `,`, are collected back as exactly those values |
| ModuleParams.ArrayDefaultsSound | rust/module.rs:274-284 | everything the corrected collector accepts for a literal-valued type is such a list |
| ModuleParams.ArrayDefaultsAgree | rust/module.rs:274-284 | wherever the corrected collector accepts, the collector as written yields the same values |
| ModuleParams.NegativeArrayDefaultDropped | rust/module.rs:277 | the tokens of `[-1, 2]` yield no values at all as written, while the corrected collector panics |
| ModuleParams.StrayTokenTruncatesArrayDefault | rust/module.rs:277-284 | `[1, x, 3]` yields only `1` as written, while the corrected collector panics |
| ModuleParams.DefaultValue | rust/module.rs:266-297 | consumes one token; for an array type it needs a bracketed group whose values the collector as written accepts, and yields `ArrayParam::create(&[…])` of them |
| ModuleParams.GetDefault | rust/module.rs:256-300 | accepts only `default : <value> ,`; an array default yields `ArrayParam::create(&[…])` of the values the collector as written gathers, joined with `,` |
| ModuleParams.GetDefaultArrayRoundTrip | rust/module.rs:256-300 | `default: [v1, …, vn],` with literal values yields `ArrayParam::create(&[v1,…,vn])`, where the collectors as written and as intended agree |
| ModuleInfoParser.ReadValue | rust/module.rs:354-369 | an unknown key panics as unknown; a known key consumes exactly its value token |
| ModuleInfoParser.ScanStep | rust/module.rs:339-373 | each accepted `key : value ,` consumes tokens |
| ModuleInfoParser.FirstMissing | rust/module.rs:378-382 | no key is reported missing exactly when every required key was seen; a key reported is required and was not seen |
| ModuleInfoParser.FirstMissingIsFirst | rust/module.rs:378-382 | every required key before the one reported was seen, so the first missing one in `type, name, license` order is reported |
| ModuleInfoParser.KeepSeen | rust/module.rs:384-389 | the ordered keys are exactly the expected keys that were seen |
| ModuleInfoParser.ScanEntries | rust/module.rs:338-374 | the entry loop computes `ScanFrom`: the keys read, in order, and the information stored, or the first panic |
| ModuleInfoParser.CheckRequired | rust/module.rs:378-382 | the loop over the required keys finds `FirstMissing` |
| ModuleInfoParser.OrderKeys | rust/module.rs:384-389 | the loop over the expected keys builds `KeepSeen` of the keys read |
| ModuleInfoParser.Parse | rust/module.rs:322-399 | the loop, the required-keys check and the order check compute `ParseSpec` |
| ModuleInfoParser.OrderedIff | rust/module.rs:384-396 | for distinct keys, the order check passes exactly when the keys read are a subsequence of `EXPECTED_KEYS` |
| ModuleInfoParser.ScanEntry | rust/module.rs:339-373 | one well-formed entry with a new key is read and stored as `ApplyEntry` says |
| ModuleInfoParser.ScanStepShape | rust/module.rs:339-373 | a step that does not panic has read a known, not yet seen key, `:`, a value of the key's kind and `,` |
| ModuleInfoParser.ScanRender | rust/module.rs:338-374 | well-formed entries with new, distinct keys are all read, in order |
| ModuleInfoParser.ParseAccepts | rust/module.rs:322-399 | every well-formed declaration is accepted and yields its information |
| ModuleInfoParser.ScanSound | rust/module.rs:338-374 | a stream the loop reads without a panic is a list of well-formed entries, and the loop's keys and information are theirs |
| ModuleInfoParser.ParseSound | rust/module.rs:322-399 | every accepted declaration is a well-formed one, and the result is its information |
| ModuleInfoParser.ParseRejectsDuplicate | rust/module.rs:345-350 | a key written again panics as a duplicate |
| ModuleInfoParser.ParseRejectsUnknown | rust/module.rs:365-368 | a key outside `EXPECTED_KEYS` panics as unknown |
| ModuleInfoParser.ParseRejectsMissing | rust/module.rs:378-382 | entries lacking a required key panic naming `FirstMissing` of the required keys, the first missing one in `type, name, license` order |
| ModuleInfoParser.ParseRejectsMisordered | rust/module.rs:391-396 | known, distinct keys out of the expected order panic with the expected order |
| ModuleInfoParser.AliasRtnlLink | rust/module.rs:361-363 | `alias_rtnl_link: b"x"` stores `rtnl-link-x` into `alias` |
| Miscdev.Registrations.constructor | rust/kernel/miscdev.rs:33-38 | nothing registered and all four slots empty |
| Miscdev.Registrations.Add | rust/kernel/miscdev.rs:40-46 | with room: stores the entry at index `registered`, returns that index, increments the counter, and leaves every other slot unchanged; full: the assertion fails and nothing changes; the filled slots stay exactly the first `registered` |
| Miscdev.Registrations.Find | rust/kernel/miscdev.rs:50-61 | returns a registered entry satisfying the predicate with no lower-index match, or `None` exactly when no registered entry satisfies it |
| Miscdev.Registration.New | rust/kernel/miscdev.rs:82-89 | not registered, a zeroed `miscdevice`, the context as given |
| Miscdev.Registration.Register | rust/kernel/miscdev.rs:108-144 | a second call fails with `EINVAL` and changes nothing; otherwise the fops, name and minor (`MISC_DYNAMIC_MINOR` when none) are set, and the device is registered unless `misc_register` reports an error, which is returned |
| Miscdev.Registration.RegisterTwice | rust/kernel/miscdev.rs:115-143 | with the host result 0, the first `register` succeeds and the second fails with `EINVAL` |
| Miscdev.NewPinned | rust/kernel/miscdev.rs:94-102 | an allocation failure is `ENOMEM`; a registration error is passed on; success yields a fresh, registered instance holding the context, name and minor |
| RustSemaphore.SaturatingAdd | samples/rust/rust_semaphore.rs:100 | the sum when it fits in a `usize`, `usize::MAX` otherwise; never below the first operand |
| RustSemaphore.WrappingIncrement | samples/rust/rust_semaphore.rs:93 | `fetch_add(1)` on a `u64` adds one, wrapping `u64::MAX` to 0 |
| RustSemaphore.Produce | samples/rust/rust_semaphore.rs:99-104 | the write's effect keeps `max_seen >= count` and both within `usize` |
| RustSemaphore.ProduceEffect | samples/rust/rust_semaphore.rs:99-104 | the count grows by the length or saturates; the high-water mark never drops and ends at least the count |
| RustSemaphore.ProduceTwice | samples/rust/rust_semaphore.rs:99-104 | two writes have the effect of one write of both lengths |
| RustSemaphore.ConsumeOutcome | samples/rust/rust_semaphore.rs:61-70 | `consume` keeps the invariant; its new state is the old one with the writes made while it waited applied and then, on success, one unit taken that was there; on failure it is `EINTR` with no unit taken |
| RustSemaphore.ConsumeAvailable | samples/rust/rust_semaphore.rs:63-69 | with a positive count, `consume` decrements it by exactly one and does not wait |
| RustSemaphore.ConsumeInterrupted | samples/rust/rust_semaphore.rs:63-66 | an interrupted wait returns `EINTR` with only the writes made meanwhile applied: the state is unchanged when there were none, and units written meanwhile are left untaken |
| RustSemaphore.ConsumeAfterWrite | samples/rust/rust_semaphore.rs:63-69 | a reader waiting on an empty semaphore, woken by a write of `n` bytes, takes one unit and leaves `n - 1` |
| RustSemaphore.Semaphore.constructor | samples/rust/rust_semaphore.rs:129-132 | `count` and `max_seen` both start at 0 |
| RustSemaphore.Semaphore.Add | samples/rust/rust_semaphore.rs:99-104 | the locked block of `write` updates the state as `Produce` says and keeps it valid |
| RustSemaphore.FileState.Open | samples/rust/rust_semaphore.rs:74-79 | a new file has `read_count` 0 and shares the semaphore |
| RustSemaphore.FileState.Consume | samples/rust/rust_semaphore.rs:61-70 | the wait loop and decrement compute `ConsumeSpec` |
| RustSemaphore.FileState.Read | samples/rust/rust_semaphore.rs:87-95 | an empty buffer or a nonzero offset returns 0 and changes nothing; otherwise a failed `consume` is passed on; a consumed unit with the byte written returns 1 and increments `read_count`; a failed copy is `EFAULT` |
| RustSemaphore.FileState.Write | samples/rust/rust_semaphore.rs:97-108 | updates the state as `Produce` with the buffer's length, returns that length, and leaves `read_count` alone |
| RustSemaphore.FileState.IoctlRead | samples/rust/rust_semaphore.rs:158-166 | `IOCTL_GET_READ_COUNT` (`0x80086301`) reports `read_count` and returns 0; every other command is `EINVAL` |
| RustSemaphore.FileState.IoctlWrite | samples/rust/rust_semaphore.rs:168-176 | `IOCTL_SET_READ_COUNT` (`0x40086301`) stores the value read and returns 0, or passes on the read's error; every other command is `EINVAL` and changes nothing |
| RustSemaphore.FileState.SetThenGet | samples/rust/rust_semaphore.rs:154-176 | a GET after a SET of `v` reports `v` |
| IovIterModel.IovIter.FromCount | rust/kernel/iov_iter.rs:48-51 | wraps an iterator spanning the given count |
| IovIterModel.IovIter.Len | rust/kernel/iov_iter.rs:38-41 | `common_len`, and with it `len` of both the writer (lines 55-57) and the reader (lines 83-85), is the iterator's `count` |
| IovIterModel.IovIter.Clear | rust/kernel/iov_iter.rs:59-70 | computes `ClearResult`; the iterator advances by exactly the bytes zeroed; on success that is `len` bytes, on failure `EFAULT` and fewer |
| IovIterModel.ClearOutcome | rust/kernel/iov_iter.rs:60-68 | `clear` succeeds exactly when the zeroed bytes add up to `len`, and fails only with `EFAULT`; it never zeroes more than `len` or `count`, nor calls the helper more often than it answers |
| IovIterModel.ClearBeyondCount | rust/kernel/iov_iter.rs:59-70 | clearing more bytes than the iterator spans always ends in `EFAULT` |
| IovIterModel.ClearNothing | rust/kernel/iov_iter.rs:60 | `clear(0)` succeeds with no helper call and nothing zeroed |
| IovIterModel.ClearStopsAtZero | rust/kernel/iov_iter.rs:62-65 | a helper call that zeroes nothing fails `clear` with `EFAULT` at once |
| IovIterModel.ClearAtOnce | rust/kernel/iov_iter.rs:59-70 | a helper that zeroes the whole request in one call makes `clear` succeed after one call |
| IovIterModel.IovIter.WriteRaw | rust/kernel/iov_iter.rs:72-79 | `Ok` exactly when the copy helper reports `len` bytes, `EFAULT` otherwise; the iterator advances by the bytes copied; asking for more than `count` fails |
| IovIterModel.IovIter.ReadRaw | rust/kernel/iov_iter.rs:87-94 | `Ok` exactly when the copy helper reports `len` bytes, `EFAULT` otherwise; the iterator advances by the bytes copied; asking for more than `count` fails |

## Left out

- The code generation of `rust/module.rs` is not modelled: the parameter statics, the module body, the `module_misc_device` body, the `RUST_MODFILE` lookup and the final parse into a `TokenStream`. It produces Rust source for the compiler, not behaviour.
- The `#[link_section]`/`#[used]` text around each `.modinfo` static. `ModinfoStatic` keeps only the `cfg` choice, the variable, the string and the declared length.
- `ModuleInfoParser.ReadValue`: one branch serves the five byte-string keys, storing through `StoreByteString`. The source has one match arm per key, and the resulting information is the same.
- `ModuleInfoParser.ParseSpec`: the `expect_end` after the loop cannot fail, because the loop only leaves at the end of the stream. It is not modelled as a separate check.
- `Modinfo.AsciiUpper` is a reference rule for the `param_ops_path` table, not a function of the source.
- `Modinfo.Utf8Len` gives the encoded length of each `char`, the scalar value Dafny's `char` holds, not the bytes themselves.
- `rust/rstubs.rs`, `rust/stubs.c` and `samples/rust/rust_chrdev.rs` are stubs and test drivers. So is `test_fileops` in the semaphore sample.
- Concurrency in the semaphore sample: the mutex, the condition variable's blocking and `notify_all`, and the atomics' memory ordering. Other files' writes made while a reader waits are applied when its wait returns; every other operation runs alone.
- Wake-ups (`WaitEvent`): what happens during a wait is modelled only as other files' writes. A concurrent reader taking units while another waits is not modelled.
- `RustSemaphore.FileState.Read` treats the generic `IoBufferWriter` as an `IovIter`. `write_slice` (in `io_buffer.rs`, not part of this model) is taken to call `write_raw` with the slice's length.
- `RustSemaphore.FileState.IoctlRead`: the user-space copy of `UserSlicePtrWriter::write` (in `user_ptr.rs`, not part of this model) is a `copyFailed` flag, whose failure is `EFAULT`. `IoctlWrite` takes the result of `UserSlicePtrReader::read` as a parameter.
- `RustSemaphore.FileState.Open` does not model the allocation failure of `Box::try_new`. `RustSemaphore::init`, its `Arc::try_new`, and the device registration it performs, are not modelled beyond the initial state of the semaphore.
- The `ioctl` dispatch through `IoctlCommand::dispatch` is not modelled: the two handlers are modelled directly.
- `Registration::drop` is not modelled: its only action, `misc_deregister`, is commented out in the source.
- `FileOperationsVtable::build` is only a flag in the model (`fopsInstalled`). Also left out: `container_of!` in `convert`, and the pinning.
- `Registrations` is not wired into `register` in the source, and the model does not wire it either.
- `Miscdev.Registration.Register` takes the `misc_register` return code as a parameter. The source has that call commented out and uses 0 in its place.
- The bytes that `iov_iter_zero`, `copy_to_iter` and `copy_from_iter` copy or zero are not modelled: only the counts they report and how far the iterator advances.
- `IovIterModel.IovIter.Clear`, `IovIterModel.IovIter.WriteRaw` and `IovIterModel.IovIter.ReadRaw` assume the helpers never report more bytes than asked or than the iterator spans. `clear` relies on this: its `len -= written` would underflow otherwise. `write_raw` and `read_raw` only compare the report with `len`, and the model does not cover a report above it.

## Findings

| source | as written | input that shows it | evidently intended | confidence | as-written member | corrected member |
|---|---|---|---|---|---|---|
| rust/module.rs:277-284 | the array collector stops silently at the first token that is not a value of the element type, and drops everything after it | `default: [-1, 2],` for an `ArrayParam<i32, 4>` (tokens `-`, `1`, `,`, `2`) gives `ArrayParam::create(&[])`; `[1, x, 3]` gives `&[1]` | a token that is not a value where one is due panics, as the scalar branch does ("Expected default param value"), with an optional trailing `,` | medium, not executed | ModuleParams.ArrayDefaultsAsWritten | ModuleParams.ArrayDefaultsRoundTrip |

`get_default` (`ModuleParams.GetDefault`, `ModuleParams.DefaultValue`, `ModuleParams.CollectArrayDefaults`) follows the code as written, so `ArrayDefaultsTruncate`, `NegativeArrayDefaultDropped` and `StrayTokenTruncatesArrayDefault` describe what the macro does. `ModuleParams.ArrayDefaults` is the intended collector. `ArrayDefaultsRoundTrip` and `ArrayDefaultsSound` prove that it accepts exactly the lists of values, with an optional trailing `,`. `ArrayDefaultsAgree` proves that the code as written gives the same values wherever the intended collector accepts.
