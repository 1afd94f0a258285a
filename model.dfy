/** The registry entity: a named account that belongs to one user. */
module Model {

  import opened Wrappers

  /** What the store holds for a saved registry at one moment. */
  datatype Row = Row(id: string, name: string, userId: string, amount: int)

  /** The whitespace characters a blank identifier may consist of (ASCII only). */
  predicate IsWhitespace(c: char) {
    c == ' ' || c == '\t' || c == '\n' || c == '\r'
  }

  /** A string holding at least one non-whitespace character. */
  predicate NotBlank(s: string) {
    exists i :: 0 <= i < |s| && !IsWhitespace(s[i])
  }

  /**
   * A mutable registry entity. Its id is absent until the store saves it; the amount is an exact
   * integer balance.
   */
  class Registry {
    var id: Option<string>
    var name: string
    var userId: string
    var amount: int

    /** A new, unsaved registry: name, owner and amount as given, no id yet. */
    constructor (name: string, userId: string, amount: int)
      ensures id == None
      ensures this.name == name && this.userId == userId && this.amount == amount
    {
      id := None;
      this.name := name;
      this.userId := userId;
      this.amount := amount;
    }

    /** The generated setter of the balance; it touches no other field. */
    method SetAmount(amount: int)
      modifies this
      ensures this.amount == amount
      ensures id == old(id) && name == old(name) && userId == old(userId)
    {
      this.amount := amount;
    }

    /** The current value of a saved registry. */
    function View(): Row
      reads this
      requires id.Some?
    {
      Row(id.value, name, userId, amount)
    }
  }
}
