/**
 * The `#[stack_trace_debug]` attribute: it accepts an enum and emits the
 * enum unchanged followed by the generated `VirtualStackTrace` and `Debug`
 * impls; any other item is refused with a fixed compile error.
 */
module Expansion {
  import opened Wrappers

  /** The shape of the annotated item, as `syn::Data` distinguishes it. */
  datatype Data = Struct | Enum | Union

  /** The annotated item: its name and its shape. */
  datatype DeriveInput = DeriveInput(ident: string, data: Data)

  /** One impl block the attribute emits, for the named type. */
  datatype GeneratedImpl = VirtualStackTraceImpl(target: string) | DebugImpl(target: string)

  /** What a successful expansion emits: the original item, then the impls. */
  datatype Expanded = Expanded(original: DeriveInput, impls: seq<GeneratedImpl>)

  /** A compile error pointing at the item, with its message. */
  datatype SpannedError = SpannedError(span: DeriveInput, message: string)

  /** The token stream the attribute returns to the compiler. */
  datatype TokenOutput = Tokens(expanded: Expanded) | CompileError(error: SpannedError)

  const NotEnumMessage: string := "stack_trace_debug can only be applied to enums"

  /** The two impls generated for the type `name`; this step never fails. */
  function GenerateVirtualStackTraceImpl(name: string): (impls: seq<GeneratedImpl>)
    ensures |impls| == 2
    ensures impls[0].VirtualStackTraceImpl? && impls[1].DebugImpl?
    ensures forall i :: 0 <= i < |impls| ==> impls[i].target == name
  {
    [VirtualStackTraceImpl(name), DebugImpl(name)]
  }

  /**
   * `generate_stack_trace_impl`: succeeds exactly on enums, keeping the item
   * unchanged ahead of the impls for its own name; everything else fails
   * with the fixed message, spanned on the item.
   */
  function GenerateStackTraceImpl(input: DeriveInput): (r: Result<Expanded, SpannedError>)
    ensures r.Ok? <==> input.data == Enum
    ensures r.Ok? ==> r.value.original == input
                      && r.value.impls == [VirtualStackTraceImpl(input.ident), DebugImpl(input.ident)]
    ensures r.Err? ==> r.error == SpannedError(input, NotEnumMessage)
  {
    match input.data
    case Enum => Ok(Expanded(input, GenerateVirtualStackTraceImpl(input.ident)))
    case _ => Err(SpannedError(input, NotEnumMessage))
  }

  /** `stack_trace_debug`: the expansion's tokens, or its error as a compile error. */
  function StackTraceDebug(input: DeriveInput): (out: TokenOutput)
    ensures out.Tokens? <==> input.data == Enum
    ensures out.Tokens? ==> out.expanded.original == input
    ensures out.CompileError? ==> out.error.message == NotEnumMessage
  {
    match GenerateStackTraceImpl(input)
    case Ok(tokens) => Tokens(tokens)
    case Err(err) => CompileError(err)
  }
}
