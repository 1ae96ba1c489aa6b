# Virtual stack traces for SNAFU errors, modelled in Dafny

`snafu-virtstack` gives error enums a "virtual stack trace". A stack frame pairs a
source location with a message. It displays as `{message} at {file}:{line}:{column}`.
The `#[stack_trace_debug]` attribute makes two impls for an error enum:

- `virtual_stack` walks the error's `source()` chain and returns one frame per link, outermost first.
- `Debug` prints an `Error:` header, a `Virtual Stack Trace:` title and one numbered line per frame.

This project models those parts.

- `wrappers.dfy` (`Wrappers`): `Option` and `Result`.
- `decimal.dfy` (`Decimal`): the decimal text that Rust's `{}` writes for the `u32` line and column and the `usize` frame index. `Parse` is its inverse: printing and parsing form a bijection between the naturals and the canonical digit strings.
- `frame.dfy` (`Frame`): `Location`, `StackFrame`, `StackFrame::new` and `Display for StackFrame`. `ParseRendered` reads a location back out of a rendered frame. It is the partner of `Render`: once the message is known, the location is recovered exactly. Without the message the layout is ambiguous, because " at " may sit in the message or in the file (`RenderAmbiguousWithoutMessage`).
- `trace.dfy` (`Trace`): the code that the attribute emits.
  - An error is an `ErrorValue`: its display text and an optional source error.
  - `VirtualStack` is the functional specification of the chain walk.
  - `CollectVirtualStack` is the emitted `while let` loop, proved equal to `VirtualStack`.
  - `DebugFmt` is the emitted `Debug::fmt` loop, proved equal to the line list `DebugLines` written one line break per line.
- `expansion.dfy` (`Expansion`): the enum-only check of the attribute and what a successful expansion emits.

The caller location that `#[track_caller]` supplies is an explicit parameter `loc`.
In the emitted code both `Location::caller()` calls sit in one `#[track_caller]` function, so every frame carries that one location.
The crate documentation shows a different location for each frame (virtstack/src/lib.rs:59-62). The code does not do that, and the model follows the code.
Likewise the chain walk has no depth bound and no truncation frame. Chains here are finite values, so the walk always ends.

## Model

| member | source | states |
|---|---|---|
| `Frame.New` | virtstack/src/lib.rs:206-208 | the new frame's location and message are exactly the arguments |
| `Frame.Render` | virtstack/src/lib.rs:221-230 | the `{message} at {file}:{line}:{column}` text of a frame. Its layout is stated by `RenderLayout` and its round trip by `ParseRenderedFrame` |
| `Frame.LocationText` | virtstack/src/lib.rs:224-228 | the `{file}:{line}:{column}` part of the text, with decimal line and column. `ParseLocationText` reads it back |
| `Frame.RenderLayout` | virtstack/src/lib.rs:221-230 | rendering is total. The text starts with the message followed at once by " at ", and ends with ':' and the column's digits. Its length is \|message\| + 4 + \|file\| + \|line digits\| + \|column digits\| + 2 |
| `Frame.ParseRenderedFrame` | virtstack/src/lib.rs:214 | given the message, the location (file, line, column) is recovered exactly from the rendered frame, whatever the message and the file contain |
| `Frame.ParseLocationText` | virtstack/src/lib.rs:224-228 | the `file:line:column` part reads back to the same location |
| `Frame.RenderInjective` | virtstack/src/lib.rs:222-229 | two frames with the same message render to the same text if and only if they are the same frame |
| `Frame.RenderAmbiguousWithoutMessage` | virtstack/src/lib.rs:224 | the frames ("x at y", z:1:2) and ("x", "y at z":1:2) differ but render alike, so a location can only be read back when the message is known |
| `Frame.RenderExample` | virtstack/src/lib.rs:216-220 | "Failed to read configuration file" at src/config.rs:42:15 renders as "Failed to read configuration file at src/config.rs:42:15" |
| `Frame.SplitLastAt` | virtstack/src/lib.rs:224 | the text after the last ':' is the part that holds no ':', which is how the digit fields are found again |
| `Decimal.FromNat` | virtstack/src/lib.rs:227-228 | the decimal text of a line or column is non-empty and all digits. It starts with '0' only for zero, which is written "0" |
| `Decimal.ToNatFromNat` | virtstack/src/lib.rs:227-228 | reading the decimal text of n as a number gives n |
| `Decimal.ParseFromNat` | virtstack/src/lib.rs:227-228 | the parser inverts the decimal printer |
| `Decimal.FromNatInjective` | virtstack/src/lib.rs:227-228 | distinct numbers print differently |
| `Decimal.FromNatToNat` | virtstack/src/lib.rs:227-228 | every canonical digit string (non-empty, no leading zero unless it is "0") is the text that `{}` writes for the number it denotes, so the decimal texts are exactly the canonical digit strings |
| `Trace.Root` | virtstack_macro/src/lib.rs:70-78 | the root cause has no source, and it is what `SourceCount(e)` source links lead to |
| `Trace.VirtualStack` | virtstack_macro/src/lib.rs:63-81 | non-empty, of length 1 + the number of source links. Frame 0 is a frame at the caller location carrying the error's own text |
| `Trace.CollectVirtualStack` | virtstack_macro/src/lib.rs:62-81 | the `while let` walk returns exactly `VirtualStack`. Its loop keeps the stack equal to the frames of the chain up to the cursor, and the cursor equal to the last cause pushed |
| `Trace.PushSource` | virtstack_macro/src/lib.rs:73-77 | pushing the frame of the cursor's source and moving the cursor to it keeps the stack on the specification |
| `Trace.SameLocation` | virtstack_macro/src/lib.rs:62-76 | every frame, the head's and each cause's, carries the one caller location |
| `Trace.CauseStep` | virtstack_macro/src/lib.rs:71-77 | advancing the cursor to its source moves one link further down the chain |
| `Trace.VirtualStackFrames` | virtstack_macro/src/lib.rs:70-77 | frame k is a frame at the caller location carrying the text of the error k links down the chain |
| `Trace.ChainEnds` | virtstack_macro/src/lib.rs:71 | no error lies one link past the last frame: the walk stops exactly when `source()` is None |
| `Trace.VirtualStackOrder` | virtstack/src/lib.rs:164-168 | frames run from the outermost error at index 0 to the root cause at the last index |
| `Trace.MessagesIndependentOfLocation` | virtstack_macro/src/lib.rs:62-76 | two collections at different caller locations give the same messages, frame by frame |
| `Trace.DebugFmt` | virtstack_macro/src/lib.rs:84-98 | the `for` loop over `enumerate()` writes the header line, the title line and the line `  {i}: {frame}` for each frame of a fresh virtual stack, each followed by a line break |
| `Trace.FrameLine` | virtstack_macro/src/lib.rs:93 | the text of `  {i}: {frame}`. Its layout is stated by `FrameLineLayout` |
| `Trace.DebugLines` | virtstack_macro/src/lib.rs:88-94 | the lines `Error: {self}`, `Virtual Stack Trace:` and one `  {i}: {frame}` per frame, in index order. `DebugHeader`, `DebugLineCount` and `DebugExample` state its properties |
| `Trace.Unlines` | virtstack_macro/src/lib.rs:88-93 | the text of a run of `writeln!` calls: each line followed by a line break. `UnlinesAppend` and `UnlinesCount` state its properties |
| `Trace.WriteFrameLine` | virtstack_macro/src/lib.rs:92-93 | writing the line of frame i extends the output by `  {i}: {frame}` and a line break |
| `Trace.FrameLineLayout` | virtstack_macro/src/lib.rs:93 | a frame line is "  ", the index digits, ": ", the message and " at ", then `file:line:column` |
| `Trace.UnlinesAppend` | virtstack_macro/src/lib.rs:88-93 | writing two runs of lines one after the other gives the text of the joined run |
| `Trace.UnlinesCount` | virtstack_macro/src/lib.rs:88-93 | lines without line breaks give exactly one line break each |
| `Trace.DebugHeader` | virtstack_macro/src/lib.rs:88-89 | the output starts with "Error: ", then frame 0's message, a line break and "Virtual Stack Trace:" with its line break |
| `Trace.FrameLineSingle` | virtstack_macro/src/lib.rs:93 | a frame line is one line when the message and the file are |
| `Trace.DebugLineCount` | virtstack_macro/src/lib.rs:88-94 | when the texts hold no line breaks, the output holds 2 + \|stack\| line breaks |
| `Trace.DebugExample` | virtstack_macro/src/lib.rs:88-94 | an "outer failed" error with source "inner cause" gives two frames and the four lines `Error: outer failed`, `Virtual Stack Trace:`, `  0: outer failed at …`, `  1: inner cause at …` |
| `Expansion.GenerateStackTraceImpl` | virtstack_macro/src/lib.rs:26-52 | succeeds exactly on enums. The original item is then followed by the `VirtualStackTrace` and `Debug` impls for its name. On a struct or union it fails with "stack_trace_debug can only be applied to enums", spanned on the item |
| `Expansion.GenerateVirtualStackTraceImpl` | virtstack_macro/src/lib.rs:54-60 | always yields the two impls, `VirtualStackTrace` then `Debug`, both for the given type name |
| `Expansion.StackTraceDebug` | virtstack_macro/src/lib.rs:16-24 | for a struct, enum or union item, emits tokens exactly for enums, keeping the item unchanged. For a struct or union it emits a compile error with the fixed message |

## Left out

- Proc-macro token plumbing is left out: `parse_macro_input!`, `syn`/`quote` tokens, `split_for_impl` and generics. An item is reduced to its name and whether it is a struct, an enum or a union. Any other item (a `fn`, `impl`, `trait`, `mod`, …) is rejected earlier by `parse_macro_input!` (virtstack_macro/src/lib.rs:17) with syn's own parse error, and that path is not modelled. The generated impls are reduced to their kind and target type.
- `std::error::Error`, `to_string()` and `source()` of foreign errors are not modelled. These are dynamic calls into code outside the crate. Each link of the chain carries its already-rendered display text.
- `#[track_caller]` / `Location::caller()` is a compiler-supplied ambient value. It is the parameter `loc`. For `DebugFmt`, `loc` is the location that `virtual_stack` captures when the generated `fmt` calls it.
- The `fmt::Formatter` and the `?` after each `writeln!` are not modelled. Writing is infallible string append, so a failing formatter is outside the model.
- Cycle detection and depth limits do not exist in the code. A cyclic `source()` chain would loop forever there, and finite `ErrorValue` values cannot express one.
- `Frame.RenderLayout`: line and column are unbounded naturals here, where Rust stores them as `u32`. No arithmetic is done on them, so no wrap-around is lost.
- The crate's prose claims about binary size, runtime enabling and zero cost have no code behind them.
