/** A database connection on which any statement, BEGIN or COMMIT may fail. */
module Connections {
  /**
   The outcome of a statement in a transaction of its own: refused, which the caller sees;
   executed but lost when COMMIT fails, which the caller does not look at; or written.
   */
  datatype Write = Refused | Lost | Written

  class Connection {
    /** How many statements have failed so far. */
    var failures: nat

    /** How many of these were lookups sent by Ask. */
    var unanswered: nat

    constructor ()
      ensures failures == 0 && unanswered == 0
    {
      failures, unanswered := 0, 0;
    }

    /** Sends one statement; the database decides whether it succeeds. */
    method Send() returns (ok: bool)
      modifies this
      ensures failures == if ok then old(failures) else old(failures) + 1
      ensures unanswered == old(unanswered)
    {
      ok := *;
      if !ok {
        failures := failures + 1;
      }
    }

    /** Sends a lookup whose failure the caller tells apart from the other failures. */
    method Ask() returns (ok: bool)
      modifies this
      ensures failures == if ok then old(failures) else old(failures) + 1
      ensures unanswered == if ok then old(unanswered) else old(unanswered) + 1
    {
      ok := Send();
      if !ok {
        unanswered := unanswered + 1;
      }
    }
  }
}
