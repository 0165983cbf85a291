/**
 * Tasks, vehicles and the Pickup/Delivery actions that the local search
 * chains together (4-centralized/src/template/Action.java, shared by the
 * auction agent).
 */
module Actions {

  /** A city of the topology, identified by its number. */
  type City = nat

  /** A pickup-and-delivery request; immutable once created. */
  datatype Task = Task(id: nat, pickupCity: City, deliveryCity: City, weight: nat)

  /** A read-only vehicle of the fleet. */
  datatype Vehicle = Vehicle(id: nat, capacity: nat, costPerKm: nat, home: City)

  /**
   * One atomic step of a vehicle's chain. Java compares actions by object
   * identity; here an action is a value, so it is keyed by its task and its
   * kind.
   */
  datatype Action = Pickup(task: Task) | Delivery(task: Task)
  {
    /** The city where the action takes place. */
    function City(): City
    {
      if Pickup? then task.pickupCity else task.deliveryCity
    }

    /** Signed change of the free space: a pickup uses room, a delivery frees it. */
    function Delta(): int
    {
      if Pickup? then -(task.weight as int) else task.weight as int
    }

    /** The action of the same task with the other kind. */
    function Partner(): (p: Action)
      ensures p.task == task && p.Pickup? == Delivery? && p != this
      ensures p.Delta() == -Delta()
    {
      if Pickup? then Delivery(task) else Pickup(task)
    }
  }

  /** The two actions of a task are distinct keys and their deltas cancel. */
  lemma PairBalanced(t: Task)
    ensures Pickup(t) != Delivery(t)
    ensures Pickup(t).Delta() + Delivery(t).Delta() == 0
  {
  }
}
