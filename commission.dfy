/** Application creation and commission assignment in `application_list_create_view` (views.py). Money
    is held in integer hundredths of a rupee and commission percentages in hundredths of a percent, so
    `quantize(Decimal('0.01'))` under the default half-even rounding is `RoundHalfEven(_, 10000)`. */
module Commission {
  import opened Wrappers
  import opened Tables

  function Abs(x: int): nat
  {
    if x < 0 then -x else x
  }

  /** `n / d` rounded to the nearest integer, ties to the even neighbour. */
  function RoundHalfEven(n: int, d: int): (q: int)
    requires d > 0
    ensures 2 * Abs(n - q * d) <= d
    ensures 2 * Abs(n - q * d) == d ==> q % 2 == 0
  {
    var q := n / d;
    var rem := n % d;
    assert n - q * d == rem;
    assert n - (q + 1) * d == rem - d;
    if 2 * rem < d then q
    else if 2 * rem > d then q + 1
    else if q % 2 == 0 then q
    else q + 1
  }

  /** The two rounding conditions single out one integer, so `RoundHalfEven` is the rounding the
      decimal module performs. */
  lemma RoundingIsUnique(n: int, d: int, q: int)
    requires d > 0
    requires 2 * Abs(n - q * d) <= d
    requires 2 * Abs(n - q * d) == d ==> q % 2 == 0
    ensures q == RoundHalfEven(n, d)
  {
    var r := RoundHalfEven(n, d);
    var e1, e2 := n - q * d, n - r * d;
    ErrorsDifferByMultiple(n, d, q, r);
    UnitMultiple(q - r, d);
    NeighboursCannotBothRound(e1, e2, d, q, r);
  }

  /** The rounding errors of two candidates differ by a multiple of `d`, which is `d` itself for
      neighbours. */
  lemma ErrorsDifferByMultiple(n: int, d: int, q: int, r: int)
    ensures (n - r * d) - (n - q * d) == (q - r) * d
    ensures q - r == 1 ==> (q - r) * d == d
    ensures r - q == 1 ==> (q - r) * d == -d
  {
    assert (q - r) * d == q * d - r * d;
  }

  /** Two integers one apart cannot both be within half a unit of the same value with ties to even. */
  lemma NeighboursCannotBothRound(e1: int, e2: int, d: int, q: int, r: int)
    requires d > 0 && 2 * Abs(e1) <= d && 2 * Abs(e2) <= d && -1 <= q - r <= 1
    requires q - r == 1 ==> e2 - e1 == d
    requires r - q == 1 ==> e1 - e2 == d
    requires 2 * Abs(e1) == d ==> q % 2 == 0
    requires 2 * Abs(e2) == d ==> r % 2 == 0
    ensures q == r
  {
  }

  /** A multiple of `d` no larger than `d` in size is `-d`, `0` or `d`. */
  lemma UnitMultiple(k: int, d: int)
    requires d > 0 && Abs(k * d) <= d
    ensures -1 <= k <= 1
  {
  }

  /** An amount in hundredths times a percentage in hundredths of a percent, quantized to 0.01. */
  function Share(total: int, percent: int): (a: int)
    ensures 2 * Abs(total * percent - a * 10000) <= 10000
    ensures 2 * Abs(total * percent - a * 10000) == 10000 ==> a % 2 == 0
  {
    RoundHalfEven(total * percent, 10000)
  }

  /** Whole amounts are not disturbed by rounding. */
  lemma ExactShareKept(total: int, percent: int)
    requires (total * percent) % 10000 == 0
    ensures Share(total, percent) == (total * percent) / 10000
  {
    RoundingIsUnique(total * percent, 10000, (total * percent) / 10000);
  }

  /** A service type with its two commission percentages. */
  datatype ServiceType = ServiceType(id: int, name: string, refereePercent: int, partnerPercent: int)

  datatype Application = Application(id: int, serviceTypeId: int, totalCommission: int, approved: bool)

  datatype Assignment = Assignment(applicationId: int, employeeId: int, commissionAmount: int)

  datatype Store = Store(applications: seq<Application>, assignments: seq<Assignment>)

  /** The `total_commission` field: missing (`Decimal(None)` raises `TypeError`), not a number
      (`InvalidOperation`, which the view does not catch), or an amount in hundredths. */
  datatype TotalInput = MissingTotal | MalformedTotal | Total(hundredths: int)

  /** A posted id: missing or empty, text the integer primary key cannot take (the lookup raises
      `ValueError`), or a number. */
  datatype PostedId = NoId | NotNumeric(text: string) | Id(value: int)

  /** The POST fields read. */
  datatype CreateForm = CreateForm(
    serviceType: PostedId,
    total: TotalInput,
    assignType: Option<string>,
    otherEmployee: PostedId)

  datatype Outcome = Created(message: string) | Failed(message: string) | Crashed

  const ErrorPrefix: string := "Error creating application: "

  function Fail(text: string): Outcome
  {
    Failed(ErrorPrefix + text)
  }

  /** The `ValueError` an integer field raises for text that is not a number. */
  function NotANumber(field: string, text: string): Outcome
  {
    Fail("Field '" + field + "' expected a number but got '" + text + "'.")
  }

  function ServiceById(types: seq<ServiceType>, id: int): Lookup<ServiceType>
  {
    Get(types, (t: ServiceType) => t.id == id)
  }

  function EmployeeExists(employeeIds: seq<int>, id: int): Lookup<int>
  {
    Get(employeeIds, (e: int) => e == id)
  }

  /** The application-creation branch of the view for the logged-in employee `me`; `newId` is the id the
      database gives the new application. */
  function CreateApplication(form: CreateForm, me: int, types: seq<ServiceType>, employeeIds: seq<int>,
                             store: Store, newId: int): (res: (Store, Outcome))
    ensures res.0.applications != store.applications ==>
              && form.serviceType.Id? && form.total.Total?
              && res.0.applications == store.applications + [Application(newId, form.serviceType.value, form.total.hundredths, false)]
    ensures res.1.Created? ==> res.0.applications != store.applications
    ensures !res.1.Created? ==> res.0.assignments == store.assignments
  {
    match form.serviceType
    case NoId => (store, Fail("You must select a service type."))
    case NotNumeric(text) => (store, NotANumber("id", text))
    case Id(typeId) =>
      match ServiceById(types, typeId)
      case DoesNotExist => (store, Fail("ServiceType matching query does not exist."))
      case MultipleObjectsReturned => (store, Crashed)
      case Found(st) =>
        match form.total
        case MissingTotal => (store, Fail("conversion from NoneType to Decimal is not supported"))
        case MalformedTotal => (store, Crashed)
        case Total(total) =>
          var app := Application(newId, st.id, total, false);
          var withApp := store.(applications := store.applications + [app]);
          var done := "Application for '" + st.name + "' created successfully!";
          if form.assignType == Some("own") then
            var amount := Share(total, st.refereePercent + st.partnerPercent);
            (withApp.(assignments := store.assignments + [Assignment(newId, me, amount)]), Created(done))
          else if form.assignType == Some("sharing") then
            match form.otherEmployee
            case NoId => (store, Fail("Please select an employee to share with."))
            case NotNumeric(text) => (withApp, NotANumber("employee_id", text))
            case Id(otherId) =>
              match EmployeeExists(employeeIds, otherId)
              case DoesNotExist => (withApp, Fail("Employee matching query does not exist."))
              case MultipleObjectsReturned => (withApp, Crashed)
              case Found(other) =>
                var referee := Share(total, st.refereePercent);
                var partner := Share(total, st.partnerPercent);
                (withApp.(assignments := store.assignments + [Assignment(newId, me, referee), Assignment(newId, other, partner)]),
                 Created(done))
          else
            (withApp, Created(done))
  }

  /** The form reaches the assignment step with service type `st` and amount `total`. */
  predicate Reaches(form: CreateForm, types: seq<ServiceType>, st: ServiceType, total: int)
  {
    form.serviceType.Id? && ServiceById(types, form.serviceType.value) == Found(st) && form.total == Total(total)
  }

  /** `own`: one assignment to the employee, worth the total times the sum of both percentages, rounded
      to the nearest paisa. */
  lemma OwnCreatesOneAssignment(form: CreateForm, me: int, types: seq<ServiceType>, employeeIds: seq<int>, store: Store,
                                newId: int, st: ServiceType, total: int)
    requires Reaches(form, types, st, total) && form.assignType == Some("own")
    ensures var res := CreateApplication(form, me, types, employeeIds, store, newId);
            var a := res.0.assignments;
            && res.1.Created?
            && res.0.applications == store.applications + [Application(newId, st.id, total, false)]
            && |a| == |store.assignments| + 1 && a[..|store.assignments|] == store.assignments
            && a[|store.assignments|].employeeId == me
            && 2 * Abs(total * (st.refereePercent + st.partnerPercent) - a[|store.assignments|].commissionAmount * 10000) <= 10000
  {
    var res := CreateApplication(form, me, types, employeeIds, store, newId);
    assert res.0.assignments[..|store.assignments|] == store.assignments;
  }

  /** `sharing` with a known partner: two assignments, each share rounded on its own. */
  lemma SharingCreatesTwoAssignments(form: CreateForm, me: int, types: seq<ServiceType>, employeeIds: seq<int>, store: Store,
                                     newId: int, st: ServiceType, total: int)
    requires Reaches(form, types, st, total) && form.assignType == Some("sharing") && form.otherEmployee.Id?
    requires EmployeeExists(employeeIds, form.otherEmployee.value).Found?
    ensures var res := CreateApplication(form, me, types, employeeIds, store, newId);
            && res.1.Created?
            && res.0.assignments == store.assignments +
                 [Assignment(newId, me, Share(total, st.refereePercent)),
                  Assignment(newId, form.otherEmployee.value, Share(total, st.partnerPercent))]
  {
  }

  /** `sharing` without a partner deletes the application again: nothing is stored. */
  lemma SharingWithoutPartnerStoresNothing(form: CreateForm, me: int, types: seq<ServiceType>, employeeIds: seq<int>,
                                           store: Store, newId: int, st: ServiceType, total: int)
    requires Reaches(form, types, st, total) && form.assignType == Some("sharing") && form.otherEmployee.NoId?
    ensures CreateApplication(form, me, types, employeeIds, store, newId)
            == (store, Fail("Please select an employee to share with."))
  {
  }

  /** An unknown partner is reported as an error, but the application stays, with no assignment. */
  lemma UnknownPartnerKeepsApplication(form: CreateForm, me: int, types: seq<ServiceType>, employeeIds: seq<int>,
                                       store: Store, newId: int, st: ServiceType, total: int)
    requires Reaches(form, types, st, total) && form.assignType == Some("sharing") && form.otherEmployee.Id?
    requires forall i :: 0 <= i < |employeeIds| ==> employeeIds[i] != form.otherEmployee.value
    ensures var res := CreateApplication(form, me, types, employeeIds, store, newId);
            && res.1 == Fail("Employee matching query does not exist.")
            && res.0 == Store(store.applications + [Application(newId, st.id, total, false)], store.assignments)
  {
    CountZero(employeeIds, (e: int) => e == form.otherEmployee.value);
  }

  /** A service type id that is not a number is reported before anything is created. */
  lemma NonNumericServiceTypeStoresNothing(form: CreateForm, me: int, types: seq<ServiceType>, employeeIds: seq<int>,
                                           store: Store, newId: int)
    requires form.serviceType.NotNumeric?
    ensures var res := CreateApplication(form, me, types, employeeIds, store, newId);
            && res.0 == store
            && res.1 == NotANumber("id", form.serviceType.text)
  {
  }

  /** A partner id that is not a number is reported after the application was created: the application
      stays, with no assignment. */
  lemma NonNumericPartnerKeepsApplication(form: CreateForm, me: int, types: seq<ServiceType>, employeeIds: seq<int>,
                                          store: Store, newId: int, st: ServiceType, total: int)
    requires Reaches(form, types, st, total) && form.assignType == Some("sharing") && form.otherEmployee.NotNumeric?
    ensures var res := CreateApplication(form, me, types, employeeIds, store, newId);
            && res.1 == NotANumber("employee_id", form.otherEmployee.text)
            && res.0 == Store(store.applications + [Application(newId, st.id, total, false)], store.assignments)
  {
  }

  /** Any other `assign_type` creates the application with no assignment. */
  lemma OtherTypeHasNoAssignment(form: CreateForm, me: int, types: seq<ServiceType>, employeeIds: seq<int>,
                                 store: Store, newId: int, st: ServiceType, total: int)
    requires Reaches(form, types, st, total) && form.assignType != Some("own") && form.assignType != Some("sharing")
    ensures var res := CreateApplication(form, me, types, employeeIds, store, newId);
            res.1.Created? && res.0.assignments == store.assignments
  {
  }

  /** Rounding the two shares separately can lose a paisa against the `own` amount: 0.01 split 50/50
      gives two shares of 0.00, while `own` gives 0.01. */
  lemma SeparateRoundingLosesAPaisa()
    ensures Share(1, 5000) + Share(1, 5000) == 0 && Share(1, 10000) == 1
  {
    assert 1 * 5000 == 5000;
    RoundingIsUnique(5000, 10000, 0);
    RoundingIsUnique(10000, 10000, 1);
  }
}
