/** Submitting a call request to the building, as the request object itself offers. */
module Requests {
  import opened Model
  import opened Building

  /** Puts `request` at the tail of the building's queue. */
  method SubmitRequest(request: ElevatorCallRequest, building: BuildingService)
    modifies building`requestQueue
    ensures building.requestQueue == old(building.requestQueue) + [request]
  {
    building.Submit(request);
  }
}
