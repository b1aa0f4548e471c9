/** The Blazor client's view selector (`AllState`): one `CurrentView` field,
    a `*Clicked` transition per view that selects it and raises the `Action`
    event, and a `Show*` test per view. The event's subscribers are counted,
    and every raise invokes each of them once. */
module ApplicationState {

  datatype ViewType = None | GeneralDepartment | Department | Branch | Country | City | Town
                    | User | Employee | Vacation | Overtime | Doctor | Sanction

  class AllState {
    var currentView: ViewType
    /** The number of handlers subscribed to `Action`. */
    var subscribers: nat
    /** The number of handler invocations `Action` has made so far. */
    var invocations: nat

    /** The state starts on no view, with no subscriber. */
    constructor ()
      ensures currentView == None && subscribers == 0 && invocations == 0
      ensures ShowCount() == 0
    {
      currentView, subscribers, invocations := None, 0, 0;
    }

    predicate ShowGeneralDepartment() reads this { currentView == GeneralDepartment }
    predicate ShowDepartment() reads this { currentView == Department }
    predicate ShowBranch() reads this { currentView == Branch }
    predicate ShowCountry() reads this { currentView == Country }
    predicate ShowCity() reads this { currentView == City }
    predicate ShowTown() reads this { currentView == Town }
    predicate ShowUser() reads this { currentView == User }
    predicate ShowEmployee() reads this { currentView == Employee }
    predicate ShowVacation() reads this { currentView == Vacation }
    predicate ShowOvertime() reads this { currentView == Overtime }
    predicate ShowDoctor() reads this { currentView == Doctor }
    predicate ShowSanction() reads this { currentView == Sanction }

    /** How many of the twelve `Show*` values hold: one, or none when the
        view is None, so at most one section is shown. */
    function ShowCount(): (n: nat)
      reads this
      ensures n == if currentView == None then 0 else 1
    {
      (if ShowGeneralDepartment() then 1 else 0) + (if ShowDepartment() then 1 else 0)
      + (if ShowBranch() then 1 else 0) + (if ShowCountry() then 1 else 0)
      + (if ShowCity() then 1 else 0) + (if ShowTown() then 1 else 0)
      + (if ShowUser() then 1 else 0) + (if ShowEmployee() then 1 else 0)
      + (if ShowVacation() then 1 else 0) + (if ShowOvertime() then 1 else 0)
      + (if ShowDoctor() then 1 else 0) + (if ShowSanction() then 1 else 0)
    }

    /** `Action += handler`. */
    method Subscribe()
      modifies this
      ensures subscribers == old(subscribers) + 1
      ensures currentView == old(currentView) && invocations == old(invocations)
    {
      subscribers := subscribers + 1;
    }

    /** `Action -= handler` for a subscribed handler. */
    method Unsubscribe()
      requires subscribers > 0
      modifies this
      ensures subscribers == old(subscribers) - 1
      ensures currentView == old(currentView) && invocations == old(invocations)
    {
      subscribers := subscribers - 1;
    }

    /** Select a view and raise `Action?.Invoke()`: it runs each subscriber
        once, and nothing when there is none. */
    method Select(view: ViewType)
      modifies this
      ensures currentView == view
      ensures subscribers == old(subscribers) && invocations == old(invocations) + subscribers
    {
      currentView := view;
      invocations := invocations + subscribers;
    }

    method GeneralDepartmentClicked()
      modifies this
      ensures currentView == GeneralDepartment && ShowGeneralDepartment()
      ensures subscribers == old(subscribers) && invocations == old(invocations) + subscribers
    {
      Select(GeneralDepartment);
    }

    method DepartmentClicked()
      modifies this
      ensures currentView == Department && ShowDepartment()
      ensures subscribers == old(subscribers) && invocations == old(invocations) + subscribers
    {
      Select(Department);
    }

    method BranchClicked()
      modifies this
      ensures currentView == Branch && ShowBranch()
      ensures subscribers == old(subscribers) && invocations == old(invocations) + subscribers
    {
      Select(Branch);
    }

    method CountryClicked()
      modifies this
      ensures currentView == Country && ShowCountry()
      ensures subscribers == old(subscribers) && invocations == old(invocations) + subscribers
    {
      Select(Country);
    }

    method CityClicked()
      modifies this
      ensures currentView == City && ShowCity()
      ensures subscribers == old(subscribers) && invocations == old(invocations) + subscribers
    {
      Select(City);
    }

    method TownClicked()
      modifies this
      ensures currentView == Town && ShowTown()
      ensures subscribers == old(subscribers) && invocations == old(invocations) + subscribers
    {
      Select(Town);
    }

    method UserClicked()
      modifies this
      ensures currentView == User && ShowUser()
      ensures subscribers == old(subscribers) && invocations == old(invocations) + subscribers
    {
      Select(User);
    }

    method EmployeeClicked()
      modifies this
      ensures currentView == Employee && ShowEmployee()
      ensures subscribers == old(subscribers) && invocations == old(invocations) + subscribers
    {
      Select(Employee);
    }

    method VacationClicked()
      modifies this
      ensures currentView == Vacation && ShowVacation()
      ensures subscribers == old(subscribers) && invocations == old(invocations) + subscribers
    {
      Select(Vacation);
    }

    method OvertimeClicked()
      modifies this
      ensures currentView == Overtime && ShowOvertime()
      ensures subscribers == old(subscribers) && invocations == old(invocations) + subscribers
    {
      Select(Overtime);
    }

    method DoctorClicked()
      modifies this
      ensures currentView == Doctor && ShowDoctor()
      ensures subscribers == old(subscribers) && invocations == old(invocations) + subscribers
    {
      Select(Doctor);
    }

    method SanctionClicked()
      modifies this
      ensures currentView == Sanction && ShowSanction()
      ensures subscribers == old(subscribers) && invocations == old(invocations) + subscribers
    {
      Select(Sanction);
    }
  }
}
