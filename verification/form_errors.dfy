/**
 * The error map every modal form keeps next to its fields: one message per
 * field name. Editing a field blanks that field's message, and only when one
 * is showing; the other messages stay as they are.
 */
module FormErrors {
  import opened Wrappers

  /** Field name to message. */
  type Errors<V> = map<string, V>

  /**
   * The `handleChange` step on the error map: when the message under `name`
   * is showing, it is replaced by `cleared`; nothing else changes.
   */
  function ClearError<V>(errors: Errors<V>, name: string, showing: V -> bool, cleared: V): (r: Errors<V>)
    ensures r.Keys == errors.Keys
    ensures forall k :: k in errors && k != name ==> r[k] == errors[k]
    ensures name in errors ==> r[name] == (if showing(errors[name]) then cleared else errors[name])
    ensures !showing(cleared) ==> forall k :: k in r && showing(r[k]) ==> k != name && k in errors && showing(errors[k])
  {
    if name in errors && showing(errors[name]) then errors[name := cleared] else errors
  }

  /** Editing the same field twice clears no more than editing it once. */
  lemma ClearErrorIdempotent<V>(errors: Errors<V>, name: string, showing: V -> bool, cleared: V)
    requires !showing(cleared)
    ensures ClearError(ClearError(errors, name, showing, cleared), name, showing, cleared) ==
            ClearError(errors, name, showing, cleared)
  {
  }

  /** Edits of two different fields clear their messages independently of the order. */
  lemma ClearErrorCommutes<V>(errors: Errors<V>, a: string, b: string, showing: V -> bool, cleared: V)
    ensures ClearError(ClearError(errors, a, showing, cleared), b, showing, cleared) ==
            ClearError(ClearError(errors, b, showing, cleared), a, showing, cleared)
  {
  }

  /** `newErrors.key = message` when the check produced a message; nothing otherwise. */
  function Record<V>(errors: Errors<V>, key: string, m: Option<V>): (r: Errors<V>)
    ensures r.Keys == if m.Some? then errors.Keys + {key} else errors.Keys
    ensures forall k :: k in errors && k != key ==> r[k] == errors[k]
    ensures m.Some? ==> r[key] == m.value
  {
    if m.Some? then errors[key := m.value] else errors
  }

  /** A string message shows when it is not empty. */
  predicate Shown(message: string) {
    message != ""
  }

  /** The set of fields whose message is showing. */
  function Showing<V>(errors: Errors<V>, showing: V -> bool): (r: set<string>)
    ensures forall k :: k in r <==> k in errors && showing(errors[k])
  {
    set k | k in errors && showing(errors[k])
  }

  /** Editing a field hides its message and keeps every other message showing as before. */
  lemma ClearErrorHidesOnlyThatField<V>(errors: Errors<V>, name: string, showing: V -> bool, cleared: V)
    requires !showing(cleared)
    ensures Showing(ClearError(errors, name, showing, cleared), showing) == Showing(errors, showing) - {name}
  {
  }
}
