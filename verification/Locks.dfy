module Locks {
  /** The locks taken in kernel/tsf_ptp.c, outermost first. */
  datatype Lock = RtnlLock | CardsLock | CardLock(card: nat) | WiphyLock(wiphy: nat)

  /** What they protect: the list of cards, a card's VIF, and the registers of its hardware. */
  datatype Shared = CardList | Vif(card: nat) | Hardware(wiphy: nat)

  /** What a thread does with them: `Touch` stands for a read or a change of what is shared. */
  datatype LockAction = Acquire(lock: Lock) | Release(lock: Lock) | Touch(what: Shared)
}
