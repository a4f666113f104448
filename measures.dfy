/**
 * Domain values of the live-measure persistence step: the component tree,
 * metrics, computed measures and the stored live-measure records.
 */
module Measures {

  datatype Option<T> = None | Some(value: T)

  /** The kinds of node in the analysed component tree; only FILE changes what is persisted. */
  datatype ComponentType = Project | Directory | File | View | Subview | ProjectView

  /** A node of the component tree, built before the step runs and never changed by it. */
  datatype Component = Component(uuid: string, kind: ComponentType, children: seq<Component>)

  /** A metric definition as the metric repository hands it out. */
  datatype Metric = Metric(uuid: string, key: string)

  /** The type of value a measure carries. */
  datatype ValueType = NoValueType | BooleanType | IntType | LongType | DoubleType | StringType | LevelType

  /** The value of a computed measure; `NoValue` for a measure that carries none. */
  datatype MeasureValue =
    | NoValue
    | BooleanValue(b: bool)
    | IntValue(i: int)
    | LongValue(l: int)
    | DoubleValue(d: real)
    | StringValue(s: string)
    | LevelValue(level: string)

  /** A freshly computed measure: a value, an optional variation and an optional data payload. */
  datatype Measure = Measure(value: MeasureValue, variation: Option<real>, data: Option<string>) {

    function ValueType(): (t: ValueType)
      ensures t == NoValueType <==> value == NoValue
    {
      match value
      case NoValue => NoValueType
      case BooleanValue(_) => BooleanType
      case IntValue(_) => IntType
      case LongValue(_) => LongType
      case DoubleValue(_) => DoubleType
      case StringValue(_) => StringType
      case LevelValue(_) => LevelType
    }

    predicate HasVariation() {
      variation.Some?
    }
  }

  /** What the stored record holds besides its two identifiers. */
  datatype Payload = Payload(value: Option<real>, textValue: Option<string>, variation: Option<real>, data: Option<string>)

  /** A stored live-measure record, unique per (component uuid, metric uuid). */
  datatype LiveMeasureDto = LiveMeasureDto(componentUuid: string, metricUuid: string, payload: Payload)
}
