/** The state of the admin dashboard component: its tabs, the chosen training
    file, the training-in-flight flag, the model status and the claims list,
    with the handlers that change them. Server responses arrive as parameters. */
module AdminDashboard {
  import opened Wrappers
  import opened JsValues
  import opened StableSort
  import opened ClaimTriage
  import opened ClaimsExport
  import opened TrainingMeta

  /** The top-level tabs. */
  datatype MainTab = Train | Claims

  /** How the training request ended: a 2xx answer with the model's meta, an
      error answer with its `detail`, or an exception (network failure or a
      body that is not JSON). */
  datatype TrainResponse = Trained(meta: Meta) | Refused(detail: string) | Thrown

  const TrainedMessage := "Training Complete!"
  const TrainFailedPrefix := "Training failed: "
  const TrainErrorMessage := "Training error"

  class Dashboard {
    var activeTab: MainTab
    var subTab: Tab
    /** The chosen training file, by name; `None` is `null` or `undefined`. */
    var file: Option<string>
    var isTraining: bool
    /** `null` until a status answer arrives. */
    var modelStatus: Option<ModelStatus>
    var claims: seq<Record>
    /** The messages shown with `alert`, oldest first. */
    var alerts: seq<string>

    /** Mounting: the initial state, then the tab effect's status fetch. A
        failed fetch leaves the status `null`. */
    constructor (status: Option<ModelStatus>)
      ensures activeTab == Train && subTab == Manual && file == None
      ensures !isTraining && modelStatus == status && claims == [] && alerts == []
    {
      activeTab := Train;
      subTab := Manual;
      file := None;
      isTraining := false;
      modelStatus := status;
      claims := [];
      alerts := [];
    }

    /** The train button is disabled while training or with no file chosen:
        an enabled button always has a file to send. */
    predicate TrainDisabled(): (disabled: bool)
      reads this
      ensures isTraining ==> disabled
      ensures !disabled ==> file.Some?
    {
      isTraining || file.None?
    }

    /** Clicking a top-level tab. The effect runs only when the tab changes: it
        refetches the status and, on the claims tab, the claims. A failed fetch
        changes nothing. */
    method SelectTab(tab: MainTab, status: Option<ModelStatus>, fetched: Option<seq<Record>>)
      modifies this
      ensures activeTab == tab && subTab == old(subTab) && file == old(file)
      ensures isTraining == old(isTraining) && alerts == old(alerts)
      ensures modelStatus == if tab != old(activeTab) && status.Some? then status else old(modelStatus)
      ensures claims == if tab != old(activeTab) && tab == Claims && fetched.Some? then fetched.value else old(claims)
    {
      var changed := tab != activeTab;
      activeTab := tab;
      if changed {
        if status.Some? {
          modelStatus := status;
        }
        if tab == Claims && fetched.Some? {
          claims := fetched.value;
        }
      }
    }

    /** Clicking a classification tab. */
    method SelectSubTab(tab: Tab)
      modifies this
      ensures subTab == tab
      ensures activeTab == old(activeTab) && file == old(file) && isTraining == old(isTraining)
      ensures modelStatus == old(modelStatus) && claims == old(claims) && alerts == old(alerts)
    {
      subTab := tab;
    }

    /** `handleFileChange`: with a file list, the first file (none if the list
        is empty); without one, nothing changes. */
    method ChooseFiles(files: Option<seq<string>>)
      modifies this
      ensures file == if files.None? then old(file) else if |files.value| == 0 then None else Some(files.value[0])
      ensures activeTab == old(activeTab) && subTab == old(subTab) && isTraining == old(isTraining)
      ensures modelStatus == old(modelStatus) && claims == old(claims) && alerts == old(alerts)
    {
      if files.Some? {
        file := if |files.value| == 0 then None else Some(files.value[0]);
      }
    }

    /** The synchronous start of `handleTrain`: without a file it returns and
        nothing changes; otherwise training is marked in flight. */
    method BeginTrain() returns (started: bool)
      modifies this
      ensures started <==> old(file).Some?
      ensures !old(TrainDisabled()) ==> started && isTraining
      ensures isTraining == (started || old(isTraining))
      ensures activeTab == old(activeTab) && subTab == old(subTab) && file == old(file)
      ensures modelStatus == old(modelStatus) && claims == old(claims) && alerts == old(alerts)
    {
      if file.None? {
        return false;
      }
      isTraining := true;
      started := true;
    }

    /** The rest of `handleTrain` once the request settles: a success alerts
        and shows the new meta as active, an error answer alerts its detail, an
        exception alerts a fixed message; in every case training ends. */
    method FinishTrain(response: TrainResponse)
      modifies this
      ensures !isTraining
      ensures response.Trained? ==>
        alerts == old(alerts) + [TrainedMessage] && modelStatus == Some(ModelStatus(true, Some(response.meta)))
      ensures response.Refused? ==>
        alerts == old(alerts) + [TrainFailedPrefix + response.detail] && modelStatus == old(modelStatus)
      ensures response.Thrown? ==> alerts == old(alerts) + [TrainErrorMessage] && modelStatus == old(modelStatus)
      ensures activeTab == old(activeTab) && subTab == old(subTab) && file == old(file) && claims == old(claims)
    {
      match response {
        case Trained(meta) =>
          alerts := alerts + [TrainedMessage];
          modelStatus := Some(ModelStatus(true, Some(meta)));
        case Refused(detail) =>
          alerts := alerts + [TrainFailedPrefix + detail];
        case Thrown =>
          alerts := alerts + [TrainErrorMessage];
      }
      isTraining := false;
    }

    /** `getFilteredClaims`: filter the claims of the current classification
        tab into a fresh array and sort that array in place, highest rank
        first. The component's own claims list is not reordered. */
    method GetFilteredClaims() returns (view: seq<Record>)
      ensures view == FilteredView(claims, subTab)
      ensures StablyOrders(view, Bucket(claims, subTab), RankKey)
      ensures multiset(view) == multiset(Bucket(claims, subTab))
    {
      var filtered := Bucket(claims, subTab);
      var a := new Record[|filtered|](i requires 0 <= i < |filtered| => filtered[i]);
      assert a[..] == filtered;
      SortInPlace(a, RankKey);
      view := a[..];
    }

    /** The export button: the current view as CSV under a timestamped name,
        or the "No claims to export." alert when the view is empty. */
    method ExportClaims(isoNow: string, numText: real -> NumberText) returns (out: ExportOutcome)
      modifies this
      ensures out == Export(FilteredView(claims, subTab), isoNow, numText)
      ensures alerts == old(alerts) + (if out.Alert? then [out.message] else [])
      ensures activeTab == old(activeTab) && subTab == old(subTab) && file == old(file)
      ensures isTraining == old(isTraining) && modelStatus == old(modelStatus) && claims == old(claims)
    {
      var view := GetFilteredClaims();
      out := Export(view, isoNow, numText);
      if out.Alert? {
        alerts := alerts + [out.message];
      }
    }
  }
}
