/** The cross-process lock handed out by the lock factory. */
module Locking {

  /**
   * Mutual exclusion across processes. Only whether the current call holds
   * the lock is tracked; blocking and the other processes are not modelled.
   */
  class ProcessLock {
    ghost var held: bool

    constructor ()
      ensures !held
    {
      held := false;
    }

    /** Acquire; one critical section per call, so never nested. */
    method Lock()
      requires !held
      modifies this
      ensures held
    {
      held := true;
    }

    method Unlock()
      requires held
      modifies this
      ensures !held
    {
      held := false;
    }
  }
}
