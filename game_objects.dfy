/** What the boids core reads of a Unity GameObject: its identity and the
    position and forward axis of its transform. */
module GameObjects {
  import opened Vectors

  /** Identity of a GameObject; two hits name the same object exactly when
      their ids are equal. */
  type Id = nat

  /** A read-only snapshot of one GameObject as a rule sees it. */
  datatype Body = Body(id: Id, position: Vec, forward: Vec)
}
