/** The registration screen: all three fields are required, and the role
    is always the default `teacher`. */
module Register {
  import opened Roles

  /** The role held by the screen; nothing on the screen changes it. */
  const DefaultRole: Role := Teacher

  /** What a press on Register leads to: an error alert and nothing else,
      or the success path, which reports the role and the values assigned
      to the loading flag, in order. */
  datatype RegisterOutcome =
    | RegisterRejected
    | Registered(name: string, email: string, role: Role, loadingStates: seq<bool>)

  /** The Register handler. */
  function HandleRegister(name: string, email: string, password: string): (o: RegisterOutcome)
    ensures o.RegisterRejected? <==> name == "" || email == "" || password == ""
    ensures o.Registered? ==>
      o.name == name && o.email == email && o.role == Teacher && o.loadingStates == [true, false]
  {
    if name == "" || email == "" || password == "" then RegisterRejected
    else Registered(name, email, DefaultRole, [true, false])
  }

  /** Registration never produces a role other than `teacher`, and the
      loading flag always ends cleared. */
  lemma RegistrationAlwaysTeacher(name: string, email: string, password: string)
    ensures var o := HandleRegister(name, email, password);
      o.Registered? ==> o.role.Name() == "teacher" && !o.loadingStates[|o.loadingStates| - 1]
  {
  }
}
