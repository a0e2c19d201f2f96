/** Three-valued truth: observed to hold, observed not to hold, or not observable. */
module Truth {

  datatype Truth = True | False | Unknown {
    /** Kleene conjunction: `False` dominates, then `Unknown`. */
    function And(other: Truth): Truth {
      if False? || other.False? then False
      else if Unknown? || other.Unknown? then Unknown
      else True
    }

    /** Kleene disjunction: `True` dominates, then `Unknown`. */
    function Or(other: Truth): Truth {
      if True? || other.True? then True
      else if Unknown? || other.Unknown? then Unknown
      else False
    }

    /** `Unknown` negates to itself. */
    function Not(): Truth {
      match this
      case True => False
      case False => True
      case Unknown => Unknown
    }
  }

  function FromBool(value: bool): Truth {
    if value then True else False
  }
}
