/**
  * The part of SyncExceptionBundle the synchroniser uses: the name filters for
  * directory listings, and a traversal stack that cdAndCheck pushes and cdUp
  * pops, with a blacklist decision on the stack after the push.
  */
module Exclusion {
  class ExceptionBundle {
    /** The traversal stack: the names entered below the root so far. */
    var stack: seq<string>
    /** filters(): whether a file name matches the listing filters. */
    const filter: string -> bool
    /** Whether the entry at the given traversal stack is blacklisted. */
    const excluded: seq<string> -> bool

    constructor(filter: string -> bool, excluded: seq<string> -> bool)
      ensures stack == [] && this.filter == filter && this.excluded == excluded
    {
      stack := [];
      this.filter := filter;
      this.excluded := excluded;
    }

    /** cdAndCheck: enter `name` and report whether it is blacklisted there. */
    method CdAndCheck(name: string) returns (isExcluded: bool)
      modifies this`stack
      ensures stack == old(stack) + [name]
      ensures isExcluded == excluded(stack)
    {
      stack := stack + [name];
      isExcluded := excluded(stack);
    }

    /** cdUp: leave the innermost name. */
    method CdUp()
      modifies this`stack
      ensures stack == if old(stack) == [] then [] else old(stack)[..|old(stack)| - 1]
    {
      if stack != [] {
        stack := stack[..|stack| - 1];
      }
    }
  }
}
