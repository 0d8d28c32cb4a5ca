/** The processed-event dictionary that travels from the normaliser, through the engine's buffers, into storage. */
module Events {
  import opened Wrappers

  /** Priority assumed wherever a consumer reads `item.get('priority', 6)`. */
  const DefaultPriority: int := 6

  /**
   * `{'message': template, 'params': [...], 'priority': p, 'original': raw, 'unit': u}`.
   * The normaliser always fills every key; `params` and `priority` are optional here because the
   * engine and storage read them with `.get(key, default)`.
   */
  datatype Record = Record(
    message: string,
    params: Option<seq<string>>,
    priority: Option<int>,
    original: string,
    unit: string)

  function PriorityOf(r: Record): int {
    r.priority.GetOr(DefaultPriority)
  }

  function ParamsOf(r: Record): seq<string> {
    r.params.GetOr([])
  }
}
