/** The user roles the login screen hands to the dashboard. */
module Roles {

  datatype Role = Teacher | Student | Admin {
    /** The role string passed as the `role` navigation parameter. */
    function Name(): string {
      match this
      case Teacher => "teacher"
      case Student => "student"
      case Admin => "admin"
    }
  }
}
