/** How the effects of a restartable operation end. */
module Effects {

  // How one effect, or a whole operation, ended. After `PowerLost` nothing more is executed.
  datatype Reply = Ok | Failed | PowerLost {
    predicate IsFailure() {
      !Ok?
    }

    function PropagateFailure(): Reply {
      this
    }
  }
}
