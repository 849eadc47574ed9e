/**
 Every step of the thread pool keeps its invariant.
 */
module ThreadPoolSteps {
  import opened ThreadPool

  lemma AddIndexedLeaves(s: State, a: Step, place: Place)
    requires a.AddIndexed? && Enabled(s, a)
    ensures LeavesAt(s, Exec(s, a), From(s, a), To(s, a), place)
  {}

  lemma AddIndexedInfos(s: State, a: Step)
    requires a.AddIndexed? && HeldInv(s) && PlaceInv(s) && EventInv(s) && Enabled(s, a)
    ensures InfosStay(s, Exec(s, a), From(s, a)) && InfosArrive(s, Exec(s, a), From(s, a), To(s, a))
    ensures EventsStay(s, Exec(s, a), From(s, a)) && EventInv(Exec(s, a))
  {
    Known(s, From(s, a));
    Known(s, To(s, a));
  }

  lemma AddIndexedJobs(s: State, a: Step)
    requires a.AddIndexed? && HeldInv(s) && JobInv(s) && CallInv(s) && Enabled(s, a)
    ensures JobsStay(s, Exec(s, a), From(s, a)) && JobsArrive(s, Exec(s, a), From(s, a), To(s, a))
  {
    Known(s, From(s, a));
    Known(s, To(s, a));
  }

  lemma AddIndexedHolds(s: State, a: Step)
    requires a.AddIndexed? && HeldInv(s) && EventInv(s) && CallInv(s) && Enabled(s, a)
    ensures HolderArrives(Exec(s, a), To(s, a))
    ensures CallInv(Exec(s, a))
  {
    Known(s, From(s, a));
    Known(s, To(s, a));
  }

  lemma BeginLeaves(s: State, a: Step, place: Place)
    requires a.Begin? && Enabled(s, a)
    ensures LeavesAt(s, Exec(s, a), From(s, a), To(s, a), place)
  {}

  lemma BeginInfos(s: State, a: Step)
    requires a.Begin? && HeldInv(s) && PlaceInv(s) && EventInv(s) && Enabled(s, a)
    ensures InfosStay(s, Exec(s, a), From(s, a)) && InfosArrive(s, Exec(s, a), From(s, a), To(s, a))
    ensures EventsStay(s, Exec(s, a), From(s, a)) && EventInv(Exec(s, a))
  {
    Known(s, From(s, a));
    Known(s, To(s, a));
  }

  lemma BeginJobs(s: State, a: Step)
    requires a.Begin? && HeldInv(s) && JobInv(s) && CallInv(s) && Enabled(s, a)
    ensures JobsStay(s, Exec(s, a), From(s, a)) && JobsArrive(s, Exec(s, a), From(s, a), To(s, a))
  {
    Known(s, From(s, a));
    Known(s, To(s, a));
  }

  lemma BeginHolds(s: State, a: Step)
    requires a.Begin? && HeldInv(s) && EventInv(s) && CallInv(s) && Enabled(s, a)
    ensures HolderArrives(Exec(s, a), To(s, a))
    ensures CallInv(Exec(s, a))
  {
    Known(s, From(s, a));
    Known(s, To(s, a));
  }

  lemma TakeInfoLeaves(s: State, a: Step, place: Place)
    requires a.TakeInfo? && Enabled(s, a)
    ensures LeavesAt(s, Exec(s, a), From(s, a), To(s, a), place)
  {}

  lemma TakeInfoInfos(s: State, a: Step)
    requires a.TakeInfo? && HeldInv(s) && PlaceInv(s) && EventInv(s) && Enabled(s, a)
    ensures InfosStay(s, Exec(s, a), From(s, a)) && InfosArrive(s, Exec(s, a), From(s, a), To(s, a))
    ensures EventsStay(s, Exec(s, a), From(s, a)) && EventInv(Exec(s, a))
  {
    Known(s, From(s, a));
    Known(s, To(s, a));
  }

  lemma TakeInfoJobs(s: State, a: Step)
    requires a.TakeInfo? && HeldInv(s) && JobInv(s) && CallInv(s) && Enabled(s, a)
    ensures JobsStay(s, Exec(s, a), From(s, a)) && JobsArrive(s, Exec(s, a), From(s, a), To(s, a))
  {
    Known(s, From(s, a));
    Known(s, To(s, a));
  }

  lemma TakeInfoHolds(s: State, a: Step)
    requires a.TakeInfo? && HeldInv(s) && EventInv(s) && CallInv(s) && Enabled(s, a)
    ensures HolderArrives(Exec(s, a), To(s, a))
    ensures CallInv(Exec(s, a))
  {
    Known(s, From(s, a));
    Known(s, To(s, a));
  }

  lemma TakeEventLeaves(s: State, a: Step, place: Place)
    requires a.TakeEvent? && HeldInv(s) && EventInv(s) && Enabled(s, a)
    ensures LeavesAt(s, Exec(s, a), From(s, a), To(s, a), place)
  {
    Known(s, From(s, a));
    Known(s, To(s, a));
  }

  lemma TakeEventInfos(s: State, a: Step)
    requires a.TakeEvent? && HeldInv(s) && PlaceInv(s) && EventInv(s) && Enabled(s, a)
    ensures InfosStay(s, Exec(s, a), From(s, a)) && InfosArrive(s, Exec(s, a), From(s, a), To(s, a))
    ensures EventsStay(s, Exec(s, a), From(s, a)) && EventInv(Exec(s, a))
  {
    Known(s, From(s, a));
    Known(s, To(s, a));
  }

  lemma TakeEventJobs(s: State, a: Step)
    requires a.TakeEvent? && HeldInv(s) && JobInv(s) && CallInv(s) && Enabled(s, a)
    ensures JobsStay(s, Exec(s, a), From(s, a)) && JobsArrive(s, Exec(s, a), From(s, a), To(s, a))
  {
    Known(s, From(s, a));
    Known(s, To(s, a));
  }

  lemma TakeEventHolds(s: State, a: Step)
    requires a.TakeEvent? && HeldInv(s) && EventInv(s) && CallInv(s) && Enabled(s, a)
    ensures HolderArrives(Exec(s, a), To(s, a))
    ensures CallInv(Exec(s, a))
  {
    Known(s, From(s, a));
    Known(s, To(s, a));
  }

  lemma SubmitLeaves(s: State, a: Step, place: Place)
    requires a.Submit? && Enabled(s, a)
    ensures LeavesAt(s, Exec(s, a), From(s, a), To(s, a), place)
  {}

  lemma SubmitInfos(s: State, a: Step)
    requires a.Submit? && HeldInv(s) && PlaceInv(s) && EventInv(s) && Enabled(s, a)
    ensures InfosStay(s, Exec(s, a), From(s, a)) && InfosArrive(s, Exec(s, a), From(s, a), To(s, a))
    ensures EventsStay(s, Exec(s, a), From(s, a)) && EventInv(Exec(s, a))
  {
    Known(s, From(s, a));
    Known(s, To(s, a));
  }

  lemma SubmitJobs(s: State, a: Step)
    requires a.Submit? && HeldInv(s) && JobInv(s) && CallInv(s) && Enabled(s, a)
    ensures JobsStay(s, Exec(s, a), From(s, a)) && JobsArrive(s, Exec(s, a), From(s, a), To(s, a))
  {
    Known(s, From(s, a));
    Known(s, To(s, a));
  }

  lemma SubmitHolds(s: State, a: Step)
    requires a.Submit? && HeldInv(s) && EventInv(s) && CallInv(s) && Enabled(s, a)
    ensures HolderArrives(Exec(s, a), To(s, a))
    ensures CallInv(Exec(s, a))
  {
    Known(s, From(s, a));
    Known(s, To(s, a));
  }

  lemma IssueLeaves(s: State, a: Step, place: Place)
    requires a.Issue? && HeldInv(s) && EventInv(s) && Enabled(s, a)
    ensures LeavesAt(s, Exec(s, a), From(s, a), To(s, a), place)
  {
    Known(s, From(s, a));
    Known(s, To(s, a));
  }

  lemma IssueInfos(s: State, a: Step)
    requires a.Issue? && HeldInv(s) && PlaceInv(s) && EventInv(s) && Enabled(s, a)
    ensures InfosStay(s, Exec(s, a), From(s, a)) && InfosArrive(s, Exec(s, a), From(s, a), To(s, a))
    ensures EventsStay(s, Exec(s, a), From(s, a)) && EventInv(Exec(s, a))
  {
    Known(s, From(s, a));
    Known(s, To(s, a));
  }

  lemma IssueJobs(s: State, a: Step)
    requires a.Issue? && HeldInv(s) && JobInv(s) && CallInv(s) && Enabled(s, a)
    ensures JobsStay(s, Exec(s, a), From(s, a)) && JobsArrive(s, Exec(s, a), From(s, a), To(s, a))
  {
    Known(s, From(s, a));
    Known(s, To(s, a));
  }

  lemma IssueHolds(s: State, a: Step)
    requires a.Issue? && HeldInv(s) && EventInv(s) && CallInv(s) && Enabled(s, a)
    ensures HolderArrives(Exec(s, a), To(s, a))
    ensures CallInv(Exec(s, a))
  {
    Known(s, From(s, a));
    Known(s, To(s, a));
  }

  lemma DequeueLeaves(s: State, a: Step, place: Place)
    requires a.Dequeue? && Enabled(s, a)
    ensures LeavesAt(s, Exec(s, a), From(s, a), To(s, a), place)
  {}

  lemma DequeueInfos(s: State, a: Step)
    requires a.Dequeue? && HeldInv(s) && PlaceInv(s) && EventInv(s) && Enabled(s, a)
    ensures InfosStay(s, Exec(s, a), From(s, a)) && InfosArrive(s, Exec(s, a), From(s, a), To(s, a))
    ensures EventsStay(s, Exec(s, a), From(s, a)) && EventInv(Exec(s, a))
  {
    Known(s, From(s, a));
    Known(s, To(s, a));
  }

  lemma DequeueJobs(s: State, a: Step)
    requires a.Dequeue? && HeldInv(s) && JobInv(s) && CallInv(s) && Enabled(s, a)
    ensures JobsStay(s, Exec(s, a), From(s, a)) && JobsArrive(s, Exec(s, a), From(s, a), To(s, a))
  {
    Known(s, From(s, a));
    Known(s, To(s, a));
  }

  lemma DequeueHolds(s: State, a: Step)
    requires a.Dequeue? && HeldInv(s) && EventInv(s) && CallInv(s) && Enabled(s, a)
    ensures HolderArrives(Exec(s, a), To(s, a))
    ensures CallInv(Exec(s, a))
  {
    Known(s, From(s, a));
    Known(s, To(s, a));
  }

  lemma StoreLeaves(s: State, a: Step, place: Place)
    requires a.Store? && Enabled(s, a)
    ensures LeavesAt(s, Exec(s, a), From(s, a), To(s, a), place)
  {}

  lemma StoreInfos(s: State, a: Step)
    requires a.Store? && HeldInv(s) && PlaceInv(s) && EventInv(s) && Enabled(s, a)
    ensures InfosStay(s, Exec(s, a), From(s, a)) && InfosArrive(s, Exec(s, a), From(s, a), To(s, a))
    ensures EventsStay(s, Exec(s, a), From(s, a)) && EventInv(Exec(s, a))
  {
    Known(s, From(s, a));
    Known(s, To(s, a));
  }

  lemma StoreJobs(s: State, a: Step)
    requires a.Store? && HeldInv(s) && JobInv(s) && CallInv(s) && Enabled(s, a)
    ensures JobsStay(s, Exec(s, a), From(s, a)) && JobsArrive(s, Exec(s, a), From(s, a), To(s, a))
  {
    Known(s, From(s, a));
    Known(s, To(s, a));
  }

  lemma StoreHolds(s: State, a: Step)
    requires a.Store? && HeldInv(s) && EventInv(s) && CallInv(s) && Enabled(s, a)
    ensures HolderArrives(Exec(s, a), To(s, a))
    ensures CallInv(Exec(s, a))
  {
    Known(s, From(s, a));
    Known(s, To(s, a));
  }

  lemma ActivateLeaves(s: State, a: Step, place: Place)
    requires a.Activate? && HeldInv(s) && EventInv(s) && Enabled(s, a)
    ensures LeavesAt(s, Exec(s, a), From(s, a), To(s, a), place)
  {
    Known(s, From(s, a));
    Known(s, To(s, a));
  }

  lemma ActivateInfos(s: State, a: Step)
    requires a.Activate? && HeldInv(s) && PlaceInv(s) && EventInv(s) && Enabled(s, a)
    ensures InfosStay(s, Exec(s, a), From(s, a)) && InfosArrive(s, Exec(s, a), From(s, a), To(s, a))
    ensures EventsStay(s, Exec(s, a), From(s, a)) && EventInv(Exec(s, a))
  {
    Known(s, From(s, a));
    Known(s, To(s, a));
  }

  lemma ActivateJobs(s: State, a: Step)
    requires a.Activate? && HeldInv(s) && JobInv(s) && CallInv(s) && Enabled(s, a)
    ensures JobsStay(s, Exec(s, a), From(s, a)) && JobsArrive(s, Exec(s, a), From(s, a), To(s, a))
  {
    Known(s, From(s, a));
    Known(s, To(s, a));
  }

  lemma ActivateHolds(s: State, a: Step)
    requires a.Activate? && HeldInv(s) && EventInv(s) && CallInv(s) && Enabled(s, a)
    ensures HolderArrives(Exec(s, a), To(s, a))
    ensures CallInv(Exec(s, a))
  {
    Known(s, From(s, a));
    Known(s, To(s, a));
  }

  lemma PickLeaves(s: State, a: Step, place: Place)
    requires a.Pick? && HeldInv(s) && EventInv(s) && Enabled(s, a)
    ensures LeavesAt(s, Exec(s, a), From(s, a), To(s, a), place)
  {
    Known(s, From(s, a));
    Known(s, To(s, a));
  }

  lemma PickInfos(s: State, a: Step)
    requires a.Pick? && HeldInv(s) && PlaceInv(s) && EventInv(s) && Enabled(s, a)
    ensures InfosStay(s, Exec(s, a), From(s, a)) && InfosArrive(s, Exec(s, a), From(s, a), To(s, a))
    ensures EventsStay(s, Exec(s, a), From(s, a)) && EventInv(Exec(s, a))
  {
    Known(s, From(s, a));
    Known(s, To(s, a));
  }

  lemma PickJobs(s: State, a: Step)
    requires a.Pick? && HeldInv(s) && JobInv(s) && CallInv(s) && Enabled(s, a)
    ensures JobsStay(s, Exec(s, a), From(s, a)) && JobsArrive(s, Exec(s, a), From(s, a), To(s, a))
  {
    Known(s, From(s, a));
    Known(s, To(s, a));
  }

  lemma PickHolds(s: State, a: Step)
    requires a.Pick? && HeldInv(s) && EventInv(s) && CallInv(s) && Enabled(s, a)
    ensures HolderArrives(Exec(s, a), To(s, a))
    ensures CallInv(Exec(s, a))
  {
    Known(s, From(s, a));
    Known(s, To(s, a));
  }

  lemma InvokeLeaves(s: State, a: Step, place: Place)
    requires a.Invoke? && Enabled(s, a)
    ensures LeavesAt(s, Exec(s, a), From(s, a), To(s, a), place)
  {}

  lemma InvokeInfos(s: State, a: Step)
    requires a.Invoke? && HeldInv(s) && PlaceInv(s) && EventInv(s) && Enabled(s, a)
    ensures InfosStay(s, Exec(s, a), From(s, a)) && InfosArrive(s, Exec(s, a), From(s, a), To(s, a))
    ensures EventsStay(s, Exec(s, a), From(s, a)) && EventInv(Exec(s, a))
  {
    Known(s, From(s, a));
    Known(s, To(s, a));
  }

  lemma InvokeJobs(s: State, a: Step)
    requires a.Invoke? && HeldInv(s) && JobInv(s) && CallInv(s) && Enabled(s, a)
    ensures JobsStay(s, Exec(s, a), From(s, a)) && JobsArrive(s, Exec(s, a), From(s, a), To(s, a))
  {
    Known(s, From(s, a));
    Known(s, To(s, a));
  }

  lemma InvokeHolds(s: State, a: Step)
    requires a.Invoke? && HeldInv(s) && EventInv(s) && CallInv(s) && Enabled(s, a)
    ensures HolderArrives(Exec(s, a), To(s, a))
    ensures CallInv(Exec(s, a))
  {
    Known(s, From(s, a));
    Known(s, To(s, a));
  }

  lemma FreeEventLeaves(s: State, a: Step, place: Place)
    requires a.FreeEvent? && HeldInv(s) && EventInv(s) && Enabled(s, a)
    ensures LeavesAt(s, Exec(s, a), From(s, a), To(s, a), place)
  {
    Known(s, From(s, a));
    Known(s, To(s, a));
  }

  lemma FreeEventInfos(s: State, a: Step)
    requires a.FreeEvent? && HeldInv(s) && PlaceInv(s) && EventInv(s) && Enabled(s, a)
    ensures InfosStay(s, Exec(s, a), From(s, a)) && InfosArrive(s, Exec(s, a), From(s, a), To(s, a))
    ensures EventsStay(s, Exec(s, a), From(s, a)) && EventInv(Exec(s, a))
  {
    Known(s, From(s, a));
    Known(s, To(s, a));
  }

  lemma FreeEventJobs(s: State, a: Step)
    requires a.FreeEvent? && HeldInv(s) && JobInv(s) && CallInv(s) && Enabled(s, a)
    ensures JobsStay(s, Exec(s, a), From(s, a)) && JobsArrive(s, Exec(s, a), From(s, a), To(s, a))
  {
    Known(s, From(s, a));
    Known(s, To(s, a));
  }

  lemma FreeEventHolds(s: State, a: Step)
    requires a.FreeEvent? && HeldInv(s) && EventInv(s) && CallInv(s) && Enabled(s, a)
    ensures HolderArrives(Exec(s, a), To(s, a))
    ensures CallInv(Exec(s, a))
  {
    Known(s, From(s, a));
    Known(s, To(s, a));
  }

  lemma FreeInfoLeaves(s: State, a: Step, place: Place)
    requires a.FreeInfo? && Enabled(s, a)
    ensures LeavesAt(s, Exec(s, a), From(s, a), To(s, a), place)
  {}

  lemma FreeInfoInfos(s: State, a: Step)
    requires a.FreeInfo? && HeldInv(s) && PlaceInv(s) && EventInv(s) && Enabled(s, a)
    ensures InfosStay(s, Exec(s, a), From(s, a)) && InfosArrive(s, Exec(s, a), From(s, a), To(s, a))
    ensures EventsStay(s, Exec(s, a), From(s, a)) && EventInv(Exec(s, a))
  {
    Known(s, From(s, a));
    Known(s, To(s, a));
  }

  lemma FreeInfoJobs(s: State, a: Step)
    requires a.FreeInfo? && HeldInv(s) && JobInv(s) && CallInv(s) && Enabled(s, a)
    ensures JobsStay(s, Exec(s, a), From(s, a)) && JobsArrive(s, Exec(s, a), From(s, a), To(s, a))
  {
    Known(s, From(s, a));
    Known(s, To(s, a));
  }

  lemma FreeInfoHolds(s: State, a: Step)
    requires a.FreeInfo? && HeldInv(s) && EventInv(s) && CallInv(s) && Enabled(s, a)
    ensures HolderArrives(Exec(s, a), To(s, a))
    ensures CallInv(Exec(s, a))
  {
    Known(s, From(s, a));
    Known(s, To(s, a));
  }
}
