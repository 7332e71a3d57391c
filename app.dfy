/** The wizard shell: which component a step renders, where that component's
    `onNext` and `onBack` callbacks lead, and how the progress indicator
    classifies each step. */
module App {
  import opened Media
  import opened JsArray

  datatype StepInfo = StepInfo(id: string, caption: string)

  const Steps: seq<StepInfo> := [
    StepInfo("upload", "Upload Image"),
    StepInfo("edit", "Resize & Edit"),
    StepInfo("background", "Remove Background"),
    StepInfo("save", "Save Image")
  ]

  datatype Screen = UploadScreen | EditScreen | BackgroundScreen | SaveScreen

  /** A rendered step: the component, and the step its `onNext` and `onBack`
      callbacks set (`None` where the component gets no such callback). */
  datatype Rendered = Rendered(screen: Screen, onNext: Option<string>, onBack: Option<string>)

  /** `renderCurrentStep`; an unrecognised step renders the upload step. */
  function Render(step: string): (r: Rendered)
    ensures r.onNext.Some? ==> exists k :: 0 <= k < |Steps| && Steps[k].id == r.onNext.value
    ensures r.onBack.Some? ==> exists k :: 0 <= k < |Steps| && Steps[k].id == r.onBack.value
    ensures r.onNext.None? <==> r.screen == SaveScreen
    ensures r.onBack.None? <==> r.screen == UploadScreen
  {
    assert Steps[0].id == "upload" && Steps[1].id == "edit";
    assert Steps[2].id == "background" && Steps[3].id == "save";
    match step
    case "upload" => Rendered(UploadScreen, Some("edit"), None)
    case "edit" => Rendered(EditScreen, Some("background"), Some("upload"))
    case "background" => Rendered(BackgroundScreen, Some("save"), Some("edit"))
    case "save" => Rendered(SaveScreen, None, Some("background"))
    case _ => Rendered(UploadScreen, Some("edit"), None)
  }

  /** `steps.findIndex(s => s.id === step)`. */
  function StepIndex(step: string): (k: int)
    ensures -1 <= k < |Steps|
    ensures k >= 0 ==> Steps[k].id == step
    ensures k == -1 <==> forall i :: 0 <= i < |Steps| ==> Steps[i].id != step
  {
    FindIndex(Steps, (s: StepInfo) => s.id == step)
  }

  /** Each listed step is found at its own position. */
  lemma IndexOfListed(i: nat)
    requires i < |Steps|
    ensures StepIndex(Steps[i].id) == i
  {
    var p := (s: StepInfo) => s.id == Steps[i].id;
    assert p(Steps[i]);
    var r := StepIndex(Steps[i].id);
    assert r >= 0 && Steps[r].id == Steps[i].id;
  }

  /** `onNext` moves one place forward in the step list and `onBack` one place
      back; the save step has no `onNext` and the upload step no `onBack`. */
  lemma NextAndBackAreNeighbours(i: nat)
    requires i < |Steps|
    ensures i + 1 < |Steps| ==> Render(Steps[i].id).onNext == Some(Steps[i + 1].id)
    ensures i + 1 == |Steps| ==> Render(Steps[i].id).onNext == None
    ensures i > 0 ==> Render(Steps[i].id).onBack == Some(Steps[i - 1].id)
    ensures i == 0 ==> Render(Steps[i].id).onBack == None
  {
  }

  /** Going back undoes going forward, and going forward undoes going back. */
  lemma BackUndoesNext(step: string)
    ensures step in {"upload", "edit", "background"} ==> Render(Render(step).onNext.value).onBack == Some(step)
    ensures step in {"edit", "background", "save"} ==> Render(Render(step).onBack.value).onNext == Some(step)
  {
  }

  /** An unknown step shows the upload component, whose `onNext` leads to `edit`. */
  lemma UnknownStepRendersUpload(step: string)
    requires StepIndex(step) == -1
    ensures Render(step) == Render("upload")
  {
    if step in {"upload", "edit", "background", "save"} {
      var i := if step == "upload" then 0 else if step == "edit" then 1 else if step == "background" then 2 else 3;
      IndexOfListed(i);
    }
  }

  datatype Status = Current | Completed | Pending

  /** The class of the indicator bubble for step `i`. */
  function StatusOf(current: string, i: nat): (st: Status)
    requires i < |Steps|
    ensures st == Current <==> StepIndex(current) == i
    ensures st == Completed <==> StepIndex(current) > i
  {
    IndexOfListed(i);
    if current == Steps[i].id then Current
    else if StepIndex(current) > i then Completed
    else Pending
  }

  /** The connector after step `i` is green when the current step lies beyond it. */
  function ConnectorGreen(current: string, i: nat): (green: bool)
    requires i < |Steps| - 1
    ensures green ==> StepIndex(current) >= 0 && Steps[StepIndex(current)].id != Steps[i].id
    ensures green <==> StatusOf(current, i) == Completed
  {
    StepIndex(current) > i
  }

  /** For a listed current step, steps before it are completed, it alone is
      current, and steps after it are pending. */
  lemma StatusByPosition(current: string, i: nat)
    requires StepIndex(current) >= 0 && i < |Steps|
    ensures StatusOf(current, i) == Current <==> i == StepIndex(current)
    ensures StatusOf(current, i) == Completed <==> i < StepIndex(current)
    ensures StatusOf(current, i) == Pending <==> i > StepIndex(current)
  {
    var k := StepIndex(current);
    IndexOfListed(i);
    IndexOfListed(k);
  }

  /** For an unlisted current step, every step is pending. */
  lemma UnknownStepAllPending(current: string, i: nat)
    requires StepIndex(current) == -1 && i < |Steps|
    ensures StatusOf(current, i) == Pending
  {
    IndexOfListed(i);
  }

  /** A connector is green exactly when the step before it is completed. */
  lemma ConnectorGreenIffCompleted(current: string, i: nat)
    requires i < |Steps| - 1
    ensures ConnectorGreen(current, i) <==> StatusOf(current, i) == Completed
  {
    IndexOfListed(i);
  }

  /** The `currentStep` state of `App`. */
  class Wizard {
    var currentStep: string

    constructor ()
      ensures currentStep == "upload"
    {
      currentStep := "upload";
    }

    /** The rendered component calls its `onNext`. */
    method Advance()
      modifies this
      ensures currentStep == if Render(old(currentStep)).onNext.Some? then Render(old(currentStep)).onNext.value else old(currentStep)
    {
      var r := Render(currentStep);
      if r.onNext.Some? {
        currentStep := r.onNext.value;
      }
    }

    /** The rendered component calls its `onBack`. */
    method Retreat()
      modifies this
      ensures currentStep == if Render(old(currentStep)).onBack.Some? then Render(old(currentStep)).onBack.value else old(currentStep)
    {
      var r := Render(currentStep);
      if r.onBack.Some? {
        currentStep := r.onBack.value;
      }
    }
  }
}
