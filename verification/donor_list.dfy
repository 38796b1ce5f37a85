/** The pure state logic of the donor list page, `src/pages/DonorList.tsx`:
    the search filter, the guard that refuses to delete a utilized donor, and
    the list update after a confirmed delete. Toasts become a `Notice`; the
    outcome of the storage call is a parameter. */
module DonorList {
  import opened Wrappers
  import opened Seqs
  import opened Text
  import opened Records

  /** The lower-cased query occurs in the lower-cased name or MRN. */
  predicate MatchesQuery(d: Donor, query: string) {
    Contains(Lower(d.fullName), Lower(query)) || Contains(Lower(d.mrn), Lower(query))
  }

  /** A donor passes every active condition; an empty string means the
      query or filter is not set. */
  predicate PassesSearch(d: Donor, query: string, bloodType: string, status: string) {
    && (query != [] ==> MatchesQuery(d, query))
    && (bloodType != [] ==> d.bloodType == bloodType)
    && (status != [] ==> StatusName(d.status) == status)
  }

  /** One optional filter pass: `if (active) list = list.filter(keep)`. */
  function FilterWhen(active: bool, keep: Donor -> bool, xs: seq<Donor>): (r: seq<Donor>)
    ensures IsSubsequence(r, xs)
    ensures forall d :: multiset(r)[d] == if !active || keep(d) then multiset(xs)[d] else 0
    ensures !active ==> r == xs
  {
    SubsequenceReflexive(xs);
    if active then Filter(keep, xs) else xs
  }

  /** `handleSearch`: the donors that pass every active condition, in list
      order and with their multiplicities. */
  function HandleSearch(donors: seq<Donor>, query: string, bloodType: string, status: string): (r: seq<Donor>)
    ensures IsSubsequence(r, donors)
    ensures forall d :: multiset(r)[d] == if PassesSearch(d, query, bloodType, status) then multiset(donors)[d] else 0
    ensures forall i :: 0 <= i < |r| ==> PassesSearch(r[i], query, bloodType, status)
    ensures query == [] && bloodType == [] && status == [] ==> r == donors
  {
    var byQuery := FilterWhen(query != [], (d: Donor) => MatchesQuery(d, query), donors);
    var byBloodType := FilterWhen(bloodType != [], (d: Donor) => d.bloodType == bloodType, byQuery);
    var byStatus := FilterWhen(status != [], (d: Donor) => StatusName(d.status) == status, byBloodType);
    assert forall d :: (multiset(byQuery)[d] ==
                        if query != [] ==> MatchesQuery(d, query) then multiset(donors)[d] else 0);
    assert forall d :: (multiset(byBloodType)[d] ==
                        if bloodType != [] ==> d.bloodType == bloodType then multiset(byQuery)[d] else 0);
    assert forall d :: (multiset(byStatus)[d] ==
                        if status != [] ==> StatusName(d.status) == status then multiset(byBloodType)[d] else 0);
    SubsequenceTransitive(byStatus, byBloodType, byQuery);
    SubsequenceTransitive(byStatus, byQuery, donors);
    SearchCombines(donors, byQuery, byBloodType, byStatus, query, bloodType, status);
    byStatus
  }

  /** The three passes together keep exactly the donors passing every test. */
  lemma {:induction false} SearchCombines(donors: seq<Donor>, byQuery: seq<Donor>, byBloodType: seq<Donor>,
                                          byStatus: seq<Donor>, query: string, bloodType: string, status: string)
    requires forall d :: (multiset(byQuery)[d] ==
                          if query != [] ==> MatchesQuery(d, query) then multiset(donors)[d] else 0)
    requires forall d :: (multiset(byBloodType)[d] ==
                          if bloodType != [] ==> d.bloodType == bloodType then multiset(byQuery)[d] else 0)
    requires forall d :: (multiset(byStatus)[d] ==
                          if status != [] ==> StatusName(d.status) == status then multiset(byBloodType)[d] else 0)
    ensures forall d :: multiset(byStatus)[d] == if PassesSearch(d, query, bloodType, status) then multiset(donors)[d] else 0
    ensures forall i :: 0 <= i < |byStatus| ==> PassesSearch(byStatus[i], query, bloodType, status)
  {
    assert forall i :: 0 <= i < |byStatus| ==> multiset(byStatus)[byStatus[i]] > 0;
  }

  /** What the user is told. */
  datatype Notice = NoNotice | CannotDeleteUtilized | DeletedSuccessfully | DeleteFailed

  datatype PageState = PageState(
    donors: seq<Donor>,
    filteredDonors: seq<Donor>,
    selectedDonor: Option<Donor>,
    showDeleteDialog: bool)

  /** `handleDelete`: a utilized donor is refused and nothing changes;
      otherwise it becomes the selection and the dialog opens. */
  function HandleDelete(s: PageState, donor: Donor): (r: (PageState, Notice))
    ensures donor.status == Utilized ==> r.0 == s && r.1 == CannotDeleteUtilized
    ensures donor.status == Available ==>
      && r.0.selectedDonor == Some(donor) && r.0.showDeleteDialog
      && r.0.donors == s.donors && r.0.filteredDonors == s.filteredDonors
      && r.1 == NoNotice
  {
    if donor.status == Utilized then (s, CannotDeleteUtilized)
    else (s.(selectedDonor := Some(donor), showDeleteDialog := true), NoNotice)
  }

  /** The list without the entries carrying `id`, the others in order. */
  function WithoutId(xs: seq<Donor>, id: string): (r: seq<Donor>)
    ensures IsSubsequence(r, xs)
    ensures forall i :: 0 <= i < |r| ==> r[i].id != id
    ensures forall d :: multiset(r)[d] == if d.id == id then 0 else multiset(xs)[d]
  {
    Filter((d: Donor) => d.id != id, xs)
  }

  /** `confirmDelete`: with no selection nothing happens. Otherwise, when the
      storage call succeeds both lists lose exactly the entries with the
      selected id and keep the others in order; whatever the outcome, the
      dialog closes and the selection is cleared. */
  function ConfirmDelete(s: PageState, deleteSucceeds: bool): (r: (PageState, Notice))
    ensures s.selectedDonor.None? ==> r == (s, NoNotice)
    ensures s.selectedDonor.Some? ==> !r.0.showDeleteDialog && r.0.selectedDonor.None?
    ensures s.selectedDonor.Some? && deleteSucceeds ==>
      && r.1 == DeletedSuccessfully
      && IsSubsequence(r.0.donors, s.donors) && IsSubsequence(r.0.filteredDonors, s.filteredDonors)
      && (forall d :: multiset(r.0.donors)[d] ==
            if d.id == s.selectedDonor.value.id then 0 else multiset(s.donors)[d])
      && (forall d :: multiset(r.0.filteredDonors)[d] ==
            if d.id == s.selectedDonor.value.id then 0 else multiset(s.filteredDonors)[d])
    ensures s.selectedDonor.Some? && !deleteSucceeds ==>
      r.1 == DeleteFailed && r.0.donors == s.donors && r.0.filteredDonors == s.filteredDonors
  {
    match s.selectedDonor
    case None => (s, NoNotice)
    case Some(selected) =>
      if deleteSucceeds then
        (PageState(WithoutId(s.donors, selected.id), WithoutId(s.filteredDonors, selected.id), None, false),
         DeletedSuccessfully)
      else
        (s.(selectedDonor := None, showDeleteDialog := false), DeleteFailed)
  }
}
