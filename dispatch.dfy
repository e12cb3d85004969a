/** `getMethod`: from the name the method selector submits to an integrator. */
module Dispatch {
  import opened Options
  import opened Integrators

  /** The key under which script.js stores each integrator. */
  function Key(m: Method): string
  {
    match m
    case Euler => "euler"
    case ImprovedEuler => "improved_euler"
    case ModifiedEuler => "modified_euler"
    case ImprovedModifiedEuler => "improved_modified_euler"
    case Aime => "aime"
  }

  /** Looks a method name up in the key table; `None` stands for `undefined`. */
  function GetMethod(name: string): (r: Option<Method>)
    ensures r.Some? <==> name in {"euler", "improved_euler", "modified_euler", "improved_modified_euler", "aime"}
    ensures r.Some? ==> Key(r.value) == name
  {
    if name == "euler" then Some(Euler)
    else if name == "improved_euler" then Some(ImprovedEuler)
    else if name == "modified_euler" then Some(ModifiedEuler)
    else if name == "improved_modified_euler" then Some(ImprovedModifiedEuler)
    else if name == "aime" then Some(Aime)
    else None
  }

  /** Every integrator is found under its own key, and only there. */
  lemma GetMethodOfKey(m: Method, name: string)
    ensures GetMethod(Key(m)) == Some(m)
    ensures GetMethod(name) == Some(m) <==> name == Key(m)
  {
  }
}
