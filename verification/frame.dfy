/**
 * One scope of the evaluator (src/frame.rs): a map from names to
 * expressions, where inserting an existing name overwrites its binding.
 */
module Frames {
  import opened Wrappers
  import opened Parser

  /** `HashMap::get`: the binding of `name`, if any. */
  function Get(variables: map<string, Expr>, name: string): (r: Option<Expr>)
    ensures r.Some? <==> name in variables
    ensures r.Some? ==> r.value == variables[name]
  {
    if name in variables then Some(variables[name]) else None
  }

  class Frame {
    var variables: map<string, Expr>

    /** `Frame::new`: a frame holding exactly one binding. */
    constructor (name: string, value: Expr)
      ensures variables == map[name := value]
      ensures Lookup(name) == Some(value)
      ensures forall other :: other != name ==> Lookup(other) == None
    {
      variables := map[name := value];
    }

    /** `lookup`. */
    function Lookup(name: string): (r: Option<Expr>)
      reads this
      ensures r.Some? <==> name in variables
      ensures r.Some? ==> r.value == variables[name]
    {
      Get(variables, name)
    }

    /** `push`: bind `name`, overwriting an earlier binding of it; other names keep theirs. */
    method Push(name: string, value: Expr)
      modifies this
      ensures variables == old(variables)[name := value]
      ensures Lookup(name) == Some(value)
      ensures forall other :: other != name ==> Lookup(other) == old(Lookup(other))
    {
      variables := variables[name := value];
    }
  }

  /**
   * Inserting a binding makes it the one `Get` sees, leaves every other name
   * as it was, and adds a key only when the name was not bound before.
   */
  lemma InsertOverwrites(variables: map<string, Expr>, name: string, value: Expr, other: string)
    ensures Get(variables[name := value], name) == Some(value)
    ensures other != name ==> Get(variables[name := value], other) == Get(variables, other)
    ensures |variables[name := value]| == if name in variables then |variables| else |variables| + 1
  {
    if name !in variables {
      assert variables[name := value].Keys == variables.Keys + {name};
    } else {
      assert variables[name := value].Keys == variables.Keys;
    }
  }
}
