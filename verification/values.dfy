/**
 * What the interpreter stores and what it returns: the values bound in its
 * variable map, their display, and the tagged result of a line or a run.
 */
module Values {
  import opened Wrappers
  import Numbers

  /**
   * A value in the variable map. Quoted text and unparsed expressions are
   * both stored as plain JavaScript strings, so one variant serves both.
   */
  datatype Value =
    | Number(literal: Numbers.Literal)
    | Text(text: string)
    | UncertainValue(nominal: Numbers.JsNumber, uncertainty: Numbers.JsNumber)
    | CircuitRef(name: string)

  /** The result object, with its `type` tag as the variant. */
  datatype ExecutionResult =
    | Success(value: string)
    | Error(message: string)
    | UncertainResult(display: string)
    | QuantumCircuit(circuitName: string, qubits: Option<nat>, counts: Option<seq<(string, nat)>>, note: string)
    | Parallel(banner: string, branches: seq<(string, string)>)

  /**
   * `formatValue`: an uncertain value as `value ± uncertainty`, a circuit
   * reference (a plain object) as its JSON text, anything else as `String(v)`.
   */
  function FormatValue(v: Value): string {
    match v
    case Number(lit) => Numbers.Render(lit)
    case Text(s) => s
    case UncertainValue(nominal, uncertainty) =>
      Numbers.FormatNumber(nominal) + " ± " + Numbers.FormatNumber(uncertainty)
    case CircuitRef(name) => "{\"type\":\"quantum_circuit\",\"name\":\"" + name + "\"}"
  }
}
