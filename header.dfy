/**
 * The dashboard header (components/dashboard-header.tsx): the signed-in
 * user's role label and the mobile menu button.
 */
module Header {
  import opened Types
  import Admin

  /**
   * The header's `getRoleName`: the same labels as the admin user table
   * except that an observer is shown as "Директор"; any other value is
   * shown as it is.
   */
  function RoleName(role: string): (r: string)
    ensures role == ObserverRole ==> r == "Директор"
    ensures role != ObserverRole ==> r == Admin.RoleName(role)
  {
    if role == StudentRole then "Студент"
    else if role == ObserverRole then "Директор"
    else if role == AccountantRole then "Бухгалтер"
    else if role == AdminRole then "Администратор"
    else role
  }

  /**
   * The two `getRoleName`s disagree on the observer alone, and the header
   * still gives the four roles four different labels.
   */
  lemma RoleNameDiffersOnObserver()
    ensures RoleName(ObserverRole) != Admin.RoleName(ObserverRole)
    ensures var labels := [RoleName(StudentRole), RoleName(ObserverRole), RoleName(AccountantRole), RoleName(AdminRole)];
      forall i, j :: 0 <= i < j < 4 ==> labels[i] != labels[j]
  {
    assert "Директор"[0] != "Наблюдатель"[0];
    assert "Студент"[0] != "Директор"[0] && "Студент"[0] != "Бухгалтер"[0] && "Студент"[0] != "Администратор"[0];
    assert "Директор"[0] != "Бухгалтер"[0] && "Директор"[0] != "Администратор"[0];
    assert "Бухгалтер"[0] != "Администратор"[0];
  }

  /** The header's only state: whether the mobile menu is open. */
  class DashboardHeader {
    var isMenuOpen: bool

    constructor()
      ensures !isMenuOpen
    {
      isMenuOpen := false;
    }

    /** The menu button: each press flips the menu, so two presses restore it. */
    method ToggleMenu()
      modifies this
      ensures isMenuOpen == !old(isMenuOpen)
    {
      isMenuOpen := !isMenuOpen;
    }
  }
}
