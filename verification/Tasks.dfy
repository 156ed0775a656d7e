/** The list node both schedulers queue their tasks in. */
module Tasks {

  class TaskNode<T> {
    const task: T
    var next: TaskNode?<T>

    constructor (task: T)
      ensures this.task == task && next == null
    {
      this.task := task;
      next := null;
    }
  }
}
