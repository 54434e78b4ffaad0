/**
 * The enrollment page: a three-step wizard. Step 1 takes an image (the
 * `ImageUpload` component), step 2 the user's details (the `UserForm`
 * component, which sends the enrollment), step 3 shows the enrolled record.
 * The page keeps the current step, the accepted image and file, and the
 * record the form handed back.
 */
module EnrollPage {
  import opened Wrappers
  import opened Api
  import Text
  import opened ProgressSteps
  import ImageUpload
  import UserForm

  /** The three steps, numbered from 1, as the indicator and the card header show them. */
  const Steps: seq<Step> := [
    Step(1, "Upload Image", "Capture or upload a clear photo"),
    Step(2, "Enter Details", "Provide user information"),
    Step(3, "Complete", "Enrollment successful")
  ]

  lemma StepsNumberedFromOne()
    ensures |Steps| == 3
    ensures forall i :: 0 <= i < |Steps| ==> Steps[i].id == i + 1
  {
  }

  /**
   * For each of the page's steps, the indicator shows exactly that step as
   * current and all earlier ones as completed.
   */
  lemma IndicatorShowsStep(step: int)
    requires 1 <= step <= |Steps|
    ensures CountStatus(Render(Steps, step), Current) == 1
    ensures CountStatus(Render(Steps, step), Completed) == step - 1
  {
    StepsNumberedFromOne();
    NumberedStepsShowOneCurrent(Steps, step);
  }

  class EnrollPage {
    var step: int
    var imageData: Option<string>
    var imageFile: Option<File>
    var userData: Option<UserForm.SubmittedData>

    /**
     * The step is one of the three; from step 2 on an image and its file
     * have been accepted, and step 3 has the enrolled record.
     */
    ghost predicate Valid()
      reads this
    {
      && 1 <= step <= 3
      && (step >= 2 ==> imageData.Some? && imageFile.Some?)
      && (step == 3 ==> userData.Some?)
    }

    constructor()
      ensures Valid()
      ensures step == 1 && imageData == None && imageFile == None && userData == None
    {
      step := 1;
      imageData := None;
      imageFile := None;
      userData := None;
    }

    /** `steps[step - 1]`: the header shows the entry whose id is the current step. */
    function Header(): (s: Step)
      reads this
      requires Valid()
      ensures s in Steps && s.id == step
    {
      Steps[step - 1]
    }

    /** `handleImageUpload`: keeps the image and its file and moves to the details step. */
    method HandleImageUpload(image: string, file: File)
      requires Valid()
      modifies this
      ensures Valid()
      ensures step == 2 && imageData == Some(image) && imageFile == Some(file)
      ensures userData == old(userData)
    {
      imageData := Some(image);
      imageFile := Some(file);
      step := 2;
    }

    /**
     * `handleUserSubmit`: keeps the record and moves to the final step, from
     * whatever step the page is on. The form calls it when its enrollment
     * request returns, which may be after the form's header back button
     * (enabled while the request runs) has returned the page to step 1; the
     * page then jumps from step 1 to step 3. The image is kept by that back
     * button, so it is present either way.
     */
    method HandleUserSubmit(data: UserForm.SubmittedData)
      requires Valid() && imageData.Some? && imageFile.Some?
      modifies this
      ensures Valid()
      ensures step == 3 && userData == Some(data)
      ensures imageData == old(imageData) && imageFile == old(imageFile)
    {
      userData := Some(data);
      step := 3;
    }

    /** The form's back button, shown on step 2 only: returns to the image step, keeping the image. */
    method Back()
      requires Valid() && step == 2
      modifies this
      ensures Valid()
      ensures step == 1
      ensures imageData == old(imageData) && imageFile == old(imageFile) && userData == old(userData)
    {
      step := 1;
    }

    /** `handleReset`: forgets everything and starts over at step 1. */
    method HandleReset()
      requires Valid()
      modifies this
      ensures Valid()
      ensures step == 1 && imageData == None && imageFile == None && userData == None
    {
      step := 1;
      imageData := None;
      imageFile := None;
      userData := None;
    }

    /**
     * Step 1's confirm button: the upload component runs detection, and the
     * page moves on with the component's image exactly when a face was found.
     */
    method ConfirmImage(upload: ImageUpload.ImageUpload, reply: HttpReply<DetectFaceResponse>)
      requires Valid() && step == 1 && upload.Valid()
      modifies this, upload
      ensures Valid() && upload.Valid()
      ensures step == 1 || step == 2
      ensures step == 2 <==>
                old(upload.Ready()) && DetectFace(reply).Success? && DetectFace(reply).value.facesDetected > 0
      ensures step == 2 ==> imageData == old(upload.preview) && imageFile == old(upload.selectedFile)
      ensures step == 1 ==> imageData == old(imageData) && imageFile == old(imageFile)
      ensures userData == old(userData)
    {
      var advance := upload.HandleConfirm(reply);
      if advance.Some? {
        HandleImageUpload(advance.value.image, advance.value.file);
      }
    }

    /**
     * Step 1's "Continue Anyway", shown once detection has reported no face:
     * moves on with whatever image the component holds.
     */
    method ContinueWithoutFace(upload: ImageUpload.ImageUpload)
      requires Valid() && step == 1 && upload.Valid() && upload.faceDetected == Some(false)
      modifies this
      ensures Valid()
      ensures step == 1 || step == 2
      ensures step == 2 <==> upload.Ready()
      ensures step == 2 ==> imageData == upload.preview && imageFile == upload.selectedFile
      ensures step == 1 ==> imageData == old(imageData) && imageFile == old(imageFile)
      ensures userData == old(userData)
    {
      var advance := upload.ContinueAnyway();
      if advance.Some? {
        HandleImageUpload(advance.value.image, advance.value.file);
      }
    }

    /**
     * Step 2's submit button: the form is given the page's image and file,
     * and the page reaches the final step with the form's record exactly when
     * the form is valid and the backend reports a successful enrollment.
     */
    method SubmitDetails(form: UserForm.UserForm, reply: HttpReply<EnrollResponse>, nowIso: string)
      requires Valid() && step == 2 && form.Valid()
      modifies this, form
      ensures Valid() && form.Valid()
      ensures step == 3 <==>
                UserForm.FormValid(old(form.formData)) && EnrollUser(reply).Success? && EnrollUser(reply).value.success
      ensures step == 3 ==>
                var result := EnrollUser(reply).value;
                userData == Some(UserForm.SubmittedData(
                  old(form.formData), imageData, Text.BeforeFirst(nowIso, 'T'), result.userId, result.faceId, result))
      ensures step != 3 ==> step == 2 && userData == old(userData)
      ensures imageData == old(imageData) && imageFile == old(imageFile)
      ensures form.formData == old(form.formData)
    {
      var sent, submitted := form.HandleSubmit(imageData, imageFile, reply, nowIso);
      if submitted.Some? {
        HandleUserSubmit(submitted.value);
      }
    }
  }
}
