/**
 * The image step of enrollment (`ImageUpload`): a picture arrives by drag and
 * drop or from the camera, is previewed, and is sent to face detection; a
 * detected face (or the "Continue Anyway" override) hands the image and its
 * file to the page. The browser's file reader, camera, video element and
 * canvas are inputs to the handlers: each handler receives the outcome they
 * eventually produce.
 */
module ImageUpload {
  import opened Wrappers
  import opened Text
  import opened Api

  /** Largest accepted upload: 10 MiB. */
  const MaxUploadBytes: nat := 10 * 1024 * 1024

  /** An image handed to the page: the data URL shown as preview and its file. */
  datatype Upload = Upload(image: string, file: File)

  // ---------------------------------------------------------------------------
  // Camera errors

  const NotSupportedMessage := "Camera not supported in this browser."
  const PlaybackFailedMessage := "Video playback failed. Please refresh the page and try again."
  const GenericCameraMessage := "Unable to access camera. Please try again."

  datatype CameraErrorKind = NotAllowed | NotFound | NotReadable | Overconstrained | Security | Other

  /** The kind of a `getUserMedia` failure, from the error's `name`. */
  function ErrorKind(name: string): CameraErrorKind {
    match name
    case "NotAllowedError" => NotAllowed
    case "NotFoundError" => NotFound
    case "NotReadableError" => NotReadable
    case "OverconstrainedError" => Overconstrained
    case "SecurityError" => Security
    case _ => Other
  }

  /** Only the five names the browser documents for `getUserMedia` get a kind of their own. */
  lemma UnknownNamesAreOther(name: string)
    ensures ErrorKind(name) == Other <==>
      name !in {"NotAllowedError", "NotFoundError", "NotReadableError", "OverconstrainedError", "SecurityError"}
  {
  }

  function KindMessage(k: CameraErrorKind): string {
    match k
    case NotAllowed => "Camera access denied. Please allow camera permissions and refresh the page."
    case NotFound => "No camera found. Please check if your device has a camera."
    case NotReadable => "Camera is being used by another application. Please close other apps and try again."
    case Overconstrained => "Camera settings not supported. Please try again."
    case Security => "Camera access blocked by security policy. Please check your browser settings."
    case Other => GenericCameraMessage
  }

  /**
   * The message shown for a failed camera request: the generic message
   * exactly when the name is none of the five known ones.
   */
  function CameraErrorMessage(name: string): (m: string)
    ensures m == GenericCameraMessage <==> ErrorKind(name) == Other
  {
    KindMessage(ErrorKind(name))
  }

  /** The name of the file a camera capture becomes. */
  function CaptureFileName(timestamp: nat): (n: string)
    ensures |n| == 19 + |NatToString(timestamp)|
    ensures IsPrefixOf("camera-capture-", n)
    ensures n[15..|n| - 4] == NatToString(timestamp) && n[|n| - 4..] == ".png"
  {
    "camera-capture-" + NatToString(timestamp) + ".png"
  }

  // ---------------------------------------------------------------------------
  // Camera inputs

  /** A media stream: its tracks, each live until stopped. */
  class MediaStream {
    const tracks: array<bool>

    constructor(count: nat)
      ensures tracks.Length == count && fresh(tracks)
      ensures forall i :: 0 <= i < count ==> tracks[i]
    {
      tracks := new bool[count](_ => true);
    }

    /** `getTracks().forEach(track => track.stop())`. */
    method StopTracks()
      modifies tracks
      ensures forall i :: 0 <= i < tracks.Length ==> !tracks[i]
    {
      var i := 0;
      while i < tracks.Length
        invariant 0 <= i <= tracks.Length
        invariant forall j :: 0 <= j < i ==> !tracks[j]
      {
        tracks[i] := false;
        i := i + 1;
      }
    }
  }

  /** The outcome of one `getUserMedia` call. */
  datatype DeviceResult = Granted(stream: MediaStream) | Rejected(errorName: string)

  /** What `play()` on the video element does once its metadata is loaded. */
  datatype PlayOutcome = NoMetadata | PlayResolved | PlayRejected

  /** The events the video element eventually delivers once a stream is attached. */
  datatype VideoEvents = VideoEvents(canPlay: bool, play: PlayOutcome)

  /** The frame state `capturePhoto` finds: a 2D context, video dimensions, and the encoded blob's size. */
  datatype Frame = Frame(hasContext: bool, videoWidth: nat, videoHeight: nat, blobSize: Option<nat>)

  // ---------------------------------------------------------------------------
  // The component

  datatype ImageState = ImageState(
    preview: Option<string>,
    selectedFile: Option<File>,
    faceDetected: Option<bool>,
    detectionResult: Option<DetectFaceResponse>)

  datatype CameraState = CameraState(showCamera: bool, isCameraActive: bool, cameraError: Option<string>, stream: MediaStream?)

  /** The camera state `stopCamera` always leaves behind. */
  const ClosedCamera: CameraState := CameraState(false, false, None, null)

  class ImageUpload {
    var preview: Option<string>
    var selectedFile: Option<File>
    var isProcessing: bool
    var faceDetected: Option<bool>
    var detectionResult: Option<DetectFaceResponse>
    var showCamera: bool
    var isCameraActive: bool
    var cameraError: Option<string>
    var stream: MediaStream?

    function Image(): ImageState
      reads this
    {
      ImageState(preview, selectedFile, faceDetected, detectionResult)
    }

    function Camera(): CameraState
      reads this
    {
      CameraState(showCamera, isCameraActive, cameraError, stream)
    }

    /**
     * Between handlers: a preview always comes with its file, a positive
     * detection with the response that reported faces, an active camera with
     * a shown camera view and a stream, and no detection is in flight.
     */
    ghost predicate Valid()
      reads this
    {
      && (preview.Some? <==> selectedFile.Some?)
      && (faceDetected == Some(true) ==> detectionResult.Some? && detectionResult.value.facesDetected > 0)
      && (isCameraActive ==> showCamera && stream != null)
      && !isProcessing
    }

    constructor()
      ensures Valid()
      ensures Image() == ImageState(None, None, None, None)
      ensures Camera() == ClosedCamera
    {
      preview := None;
      selectedFile := None;
      isProcessing := false;
      faceDetected := None;
      detectionResult := None;
      showCamera := false;
      isCameraActive := false;
      cameraError := None;
      stream := null;
    }

    /** `if (preview && selectedFile)`: a non-empty preview and a file. */
    predicate Ready()
      reads this
    {
      preview.Some? && preview.value != "" && selectedFile.Some?
    }

    /** The preview screen replaces everything else while a preview is set. */
    predicate CameraViewShown()
      reads this
    {
      !(preview.Some? && preview.value != "") && showCamera
    }

    /**
     * `onDrop`: only the first file counts; one larger than 10 MiB, or one the
     * reader never delivers, changes nothing; otherwise it becomes the
     * preview and selected file and any earlier detection is forgotten.
     */
    method OnDrop(acceptedFiles: seq<File>, readResult: Option<string>)
      requires Valid()
      modifies this
      ensures Valid()
      ensures Camera() == old(Camera())
      ensures acceptedFiles == [] || acceptedFiles[0].size > MaxUploadBytes || readResult.None? ==>
                Image() == old(Image())
      ensures acceptedFiles != [] && acceptedFiles[0].size <= MaxUploadBytes && readResult.Some? ==>
                Image() == ImageState(readResult, Some(acceptedFiles[0]), None, None)
    {
      if acceptedFiles != [] {
        var file := acceptedFiles[0];
        if file.size > MaxUploadBytes {
          return;
        }
        if readResult.Some? {
          preview := readResult;
          selectedFile := Some(file);
          faceDetected := None;
          detectionResult := None;
        }
      }
    }

    /**
     * `stopCamera`: stops every track of the current stream, if any, and
     * closes the camera view. The resulting camera state does not depend on
     * the one before, so stopping twice is the same as stopping once.
     */
    method StopCamera()
      modifies this, if stream != null then {stream.tracks} else {}
      ensures Camera() == ClosedCamera
      ensures Image() == old(Image()) && isProcessing == old(isProcessing)
      ensures old(stream) != null ==> forall i :: 0 <= i < old(stream).tracks.Length ==> !old(stream).tracks[i]
    {
      if stream != null {
        stream.StopTracks();
        stream := null;
      }
      isCameraActive := false;
      showCamera := false;
      cameraError := None;
    }

    /**
     * The synchronous part of `startCamera` and the two `getUserMedia`
     * attempts: without camera support only the error is set; otherwise the
     * camera view opens inactive, and the first granted stream becomes the
     * current one (the one before is dropped without being stopped), while two
     * refusals show the message for the second refusal's name.
     */
    method AcquireCamera(supported: bool, preferred: DeviceResult, fallback: DeviceResult) returns (obtained: bool)
      requires Valid()
      modifies this
      ensures Valid()
      ensures Image() == old(Image())
      ensures !supported ==> !obtained && Camera() == old(Camera()).(cameraError := Some(NotSupportedMessage))
      ensures supported ==> showCamera && !isCameraActive
      ensures supported && preferred.Granted? ==> obtained && stream == preferred.stream && cameraError == None
      ensures supported && preferred.Rejected? && fallback.Granted? ==>
                obtained && stream == fallback.stream && cameraError == None
      ensures supported && preferred.Rejected? && fallback.Rejected? ==>
                !obtained && stream == old(stream) && cameraError == Some(CameraErrorMessage(fallback.errorName))
    {
      if !supported {
        cameraError := Some(NotSupportedMessage);
        return false;
      }
      showCamera := true;
      cameraError := None;
      isCameraActive := false;
      if preferred.Granted? {
        stream := preferred.stream;
        obtained := true;
      } else if fallback.Granted? {
        stream := fallback.stream;
        obtained := true;
      } else {
        cameraError := Some(CameraErrorMessage(fallback.errorName));
        obtained := false;
      }
    }

    /**
     * The handlers on the video element, by their eventual effect, when the
     * element exists (`attached`): `canplay` or a resolved `play()` activates
     * the camera, a rejected `play()` reports the playback failure.
     */
    method AttachVideo(attached: bool, events: VideoEvents)
      requires Valid() && (attached ==> showCamera && stream != null)
      modifies this
      ensures Valid()
      ensures Image() == old(Image()) && showCamera == old(showCamera) && stream == old(stream)
      ensures isCameraActive <==> old(isCameraActive) || (attached && (events.canPlay || events.play == PlayResolved))
      ensures cameraError == if attached && events.play == PlayRejected then Some(PlaybackFailedMessage) else old(cameraError)
    {
      if attached && (events.play == PlayResolved || events.canPlay) {
        isCameraActive := true;
      }
      if attached && events.play == PlayRejected {
        cameraError := Some(PlaybackFailedMessage);
      }
    }

    /**
     * `startCamera` as written: the handlers are attached only if the video
     * element exists, but the element is rendered only while the camera is
     * already active, and the camera was just made inactive. So the camera
     * never becomes active, whatever the browser grants.
     */
    method StartCameraAsWritten(supported: bool, preferred: DeviceResult, fallback: DeviceResult, events: VideoEvents)
      requires Valid()
      modifies this
      ensures Valid()
      ensures Image() == old(Image())
      ensures !supported ==> Camera() == old(Camera()).(cameraError := Some(NotSupportedMessage))
      ensures supported ==> !isCameraActive
    {
      var obtained := AcquireCamera(supported, preferred, fallback);
      var videoRendered := CameraViewShown() && isCameraActive;
      AttachVideo(obtained && videoRendered, events);
    }

    /**
     * `startCamera` with the video element rendered throughout the camera
     * view: a granted stream whose video can play activates the camera, as
     * long as no preview hides the camera view.
     */
    method StartCamera(supported: bool, preferred: DeviceResult, fallback: DeviceResult, events: VideoEvents)
      requires Valid()
      modifies this
      ensures Valid()
      ensures Image() == old(Image())
      ensures !supported ==> Camera() == old(Camera()).(cameraError := Some(NotSupportedMessage))
      ensures supported ==>
                (isCameraActive <==>
                  && (preferred.Granted? || fallback.Granted?)
                  && CameraViewShown() && (events.canPlay || events.play == PlayResolved))
      ensures supported && preferred.Rejected? && fallback.Rejected? ==>
                cameraError == Some(CameraErrorMessage(fallback.errorName))
    {
      var obtained := AcquireCamera(supported, preferred, fallback);
      AttachVideo(obtained && CameraViewShown(), events);
    }

    /**
     * `capturePhoto`: refuses, changing nothing, unless the camera is active
     * in a shown camera view, the canvas has a 2D context, both video
     * dimensions are non-zero, the frame encodes and the reader delivers it.
     * Otherwise the capture becomes the preview and a PNG file named after the
     * time stamp, detection is forgotten and the camera is stopped, releasing
     * every track of its stream.
     */
    method CapturePhoto(frame: Frame, readResult: Option<string>, timestamp: nat) returns (captured: bool)
      requires Valid()
      modifies this, if stream != null then {stream.tracks} else {}
      ensures Valid()
      ensures captured <==>
                && old(CameraViewShown() && isCameraActive)
                && frame.hasContext && frame.videoWidth != 0 && frame.videoHeight != 0
                && frame.blobSize.Some? && readResult.Some?
      ensures !captured ==> Image() == old(Image()) && Camera() == old(Camera())
      ensures captured ==>
                && Image() == ImageState(readResult, Some(File(CaptureFileName(timestamp), "image/png", frame.blobSize.value)), None, None)
                && Camera() == ClosedCamera
      ensures captured && old(stream) != null ==>
                forall i :: 0 <= i < old(stream).tracks.Length ==> !old(stream).tracks[i]
    {
      if !(CameraViewShown() && isCameraActive) {
        return false;
      }
      if !frame.hasContext {
        return false;
      }
      if frame.videoWidth == 0 || frame.videoHeight == 0 {
        return false;
      }
      if frame.blobSize.None? || readResult.None? {
        return false;
      }
      var file := File(CaptureFileName(timestamp), "image/png", frame.blobSize.value);
      preview := readResult;
      selectedFile := Some(file);
      faceDetected := None;
      detectionResult := None;
      assert stream == old(stream);
      StopCamera();
      captured := true;
    }

    /**
     * `handleConfirm`: without a preview and a file nothing happens.
     * Otherwise the image goes to detection; a response is kept and decides
     * `faceDetected`, and the image is handed on exactly when it reports a
     * face; a failed request marks the image as without a face. Processing
     * has ended in every case.
     */
    method HandleConfirm(reply: HttpReply<DetectFaceResponse>) returns (advance: Option<Upload>)
      requires Valid()
      modifies this
      ensures Valid()
      ensures Camera() == old(Camera()) && preview == old(preview) && selectedFile == old(selectedFile)
      ensures !old(Ready()) ==> Image() == old(Image()) && advance.None?
      ensures old(Ready()) && DetectFace(reply).Success? ==>
                && detectionResult == Some(DetectFace(reply).value)
                && faceDetected == Some(DetectFace(reply).value.facesDetected > 0)
      ensures old(Ready()) && DetectFace(reply).Failure? ==>
                faceDetected == Some(false) && detectionResult == old(detectionResult)
      ensures advance.Some? <==> old(Ready()) && DetectFace(reply).Success? && DetectFace(reply).value.facesDetected > 0
      ensures advance.Some? ==> advance.value == Upload(preview.value, selectedFile.value)
    {
      if !Ready() {
        return None;
      }
      isProcessing := true;
      advance := None;
      match DetectFace(reply) {
        case Success(result) =>
          detectionResult := Some(result);
          faceDetected := Some(result.facesDetected > 0);
          if result.facesDetected > 0 {
            advance := Some(Upload(preview.value, selectedFile.value));
          }
        case Failure(_) =>
          faceDetected := Some(false);
      }
      isProcessing := false;
    }

    /**
     * "Continue Anyway": hands on the current image, if there is one. The
     * button is only shown once detection has reported no face.
     */
    method ContinueAnyway() returns (advance: Option<Upload>)
      requires Valid() && faceDetected == Some(false)
      ensures advance.Some? <==> Ready()
      ensures advance.Some? ==> advance.value == Upload(preview.value, selectedFile.value)
    {
      if Ready() {
        advance := Some(Upload(preview.value, selectedFile.value));
      } else {
        advance := None;
      }
    }

    /** `handleReset`: forgets the image and its detection and stops the camera, releasing every track of its stream. */
    method HandleReset()
      requires Valid()
      modifies this, if stream != null then {stream.tracks} else {}
      ensures Valid()
      ensures Image() == ImageState(None, None, None, None)
      ensures Camera() == ClosedCamera
      ensures old(stream) != null ==> forall i :: 0 <= i < old(stream).tracks.Length ==> !old(stream).tracks[i]
    {
      preview := None;
      selectedFile := None;
      faceDetected := None;
      detectionResult := None;
      StopCamera();
    }

    /** The unmount cleanup: stops the current stream's tracks and changes no state. */
    method Unmount()
      modifies if stream != null then {stream.tracks} else {}
      ensures stream != null ==> forall i :: 0 <= i < stream.tracks.Length ==> !stream.tracks[i]
    {
      if stream != null {
        stream.StopTracks();
      }
    }
  }
}
