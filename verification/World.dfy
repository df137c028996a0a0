/** The outside world and the scheduler, as far as the program cannot foresee them. */
module World {

  /** Anything at all: how many steps others take, what they write, what a call returns. */
  method Any<T(0)>() returns (value: T) {
    value := *;
  }
}
