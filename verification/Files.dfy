/** How writing a whole file can end: it is truncated when it is opened, and written after that. */
module Files {
  datatype Write = Done | NotOpened | Interrupted(kept: nat)
}
