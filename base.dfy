/** Shared vocabulary of the data compiler model: optional values, results,
    the fatal errors and the warnings the compiler can raise, and the
    per-run configuration that the original keeps in static flags. */
module Base {

  datatype Option<+T> = None | Some(value: T)

  /** An error the original throws as an exception. One that reaches
      `binarize` or the top-level preprocessing pass aborts it, so only its
      kind is kept; the few places that catch one (an included file's pass,
      the float test of `guessType`) are modelled where they occur. */
  datatype Error =
    | NumberFormat(text: string)             // Long.decode / Integer.decode refused the text
    | IndexOutOfBounds                       // substring, charAt or an array index out of range
    | NullValue                              // a null reference was dereferenced
    | MalformedElement(line: string)         // fewer than two tokens in a declaration
    | UnknownElementType(keyword: string)
    | ElementNotFound(name: string)
    | ExpressionType                         // a conditional over a constant of an unusable type
    | UnknownStruct(name: string)
    | StructNotConstant(name: string)
    | StructSyntax                           // `struct` line without `{` or without a name
    | StructWithinStruct
    | StrayBlockEnd                          // `}` at level 0 outside a struct definition
    | EmptyStruct
    | StructVariable                         // a top-level element of type struct
    | StructDataUndefined                    // the field cursor lies past the end of the struct
    | DataMismatch(name: string, expected: string)
    | UnknownStructElement(name: string)
    | NoDefaultValue(name: string)
    | CannotConvert(line: string)
    | UnknownDataElement(name: string)
    | UnexpectedElse
    | UnexpectedEndif
    | MissingEndif(open: nat)
    | ConditionalTooDeep
    | UserError(message: string)             // `#error`
    | ContinuationSyntax                     // a continuation into an empty line
    | WarningAsError(w: Warning)             // a warning under warnings-as-errors
    | UtfTooLong(size: int)                  // writeUTF of more than 65535 encoded bytes
    | Unsupported(what: string)              // float, double and file data: outside this model
    | Diverges                               // the original recurses without end

  /** A non-fatal diagnostic; under warnings-as-errors it becomes `WarningAsError`. */
  datatype Warning =
    | IncompatibleType(dataType: string, value: string)
    | StringTooBig(size: int, max: int)
    | Redefined(name: string)

  datatype Result<+T> = Ok(value: T) | Err(error: Error) {
    predicate IsFailure() { Err? }
    function PropagateFailure<U>(): Result<U>
      requires Err?
    {
      Err(error)
    }
    function Extract(): T
      requires Ok?
    {
      value
    }
  }

  /** The run-wide options of the original (static fields of DataCompiler). */
  datatype Config = Config(
    littleEndian: bool,
    useIntegerArraySize: bool,
    useWarningsAsErrors: bool,
    warnInConversion: bool,
    commentDef: string)

  /** Report a warning: fatal under warnings-as-errors, otherwise logged. */
  function Warn(cfg: Config, log: seq<Warning>, w: Warning): (r: Result<seq<Warning>>)
    ensures cfg.useWarningsAsErrors <==> r.Err?
    ensures r.Err? ==> r.error == WarningAsError(w)
    ensures r.Ok? ==> r.value == log + [w]
  {
    if cfg.useWarningsAsErrors then Err(WarningAsError(w)) else Ok(log + [w])
  }

  /** Output bytes are integers in 0..255. */
  ghost predicate ValidBytes(s: seq<int>) {
    forall i :: 0 <= i < |s| ==> 0 <= s[i] < 256
  }
}
