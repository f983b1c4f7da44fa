/**
 * The value types of the simulator: the lifecycle state of an elevator car and
 * the immutable call request (pickup floor, destination floor).
 */
module Model {

  /** The three states a car reports; UP and DOWN double as checkpoint-set keys. */
  datatype ElevatorState = Up | Down | Stationary

  /**
   * A call request.  The constructor accepts any pair of floors, equal floors
   * included; the two fields are the request's getters and never change.
   */
  datatype ElevatorCallRequest = ElevatorCallRequest(requestFloor: int, targetFloor: int)
}
