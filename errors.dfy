/** The exceptions the modelled code raises by itself, as opposed to those a
    driver or a wrapped function raises and the model receives as answers. */
module Errors {
  import opened Outcomes

  /** Raised when a list is used as a dictionary key: `hash([...])`. */
  const Unhashable: Exc := Exc("TypeError", "unhashable type: 'list'")

  /** `seed.connect_to_prodev()` returns `None` when it cannot connect, and
      the generator's next line then calls `.cursor` on `None`. */
  const NoCursor: Exc := Exc("AttributeError", "'NoneType' object has no attribute 'cursor'")

  /** `range(start, stop, 0)`: a batch size of zero. */
  const ZeroStep: Exc := Exc("ValueError", "range() arg 3 must not be zero")

  /** The built-in classes that derive from BaseException but not from
      Exception. */
  const BaseOnly: set<string> := {"BaseException", "BaseExceptionGroup", "GeneratorExit", "KeyboardInterrupt", "SystemExit"}

  /** Whether an `except Exception:` clause catches `e`: every exception
      except those that derive from BaseException alone. */
  predicate Caught(e: Exc)
  {
    e.kind !in BaseOnly
  }
}
