/** The `/predict` handler of app.py: take the first instance, make a
    temporary directory, download the input, run inference, upload every
    produced file under a destination folder, answer with the uploaded URIs,
    and remove the temporary directory whatever happened.

    The storage client, the predictor and the file system are not modelled;
    an `Env` value says how each call to them turns out, and the handler
    records the calls it makes, in order, in a ghost log. */
module Predict {
  import opened PyStr
  import opened PosixPath
  import opened GcsUri

  /** One element of the request's `instances` list. */
  datatype Instance = Instance(inputGcsUri: string, outputGcsPrefix: string)

  /** How `predictor.predict_from_files` turns out: it raises, or it fills the
      output folder, whose `os.listdir` listing is `files`. */
  datatype Inference = InferenceFailed | Produced(files: seq<string>)

  /** How each call to a collaborator turns out for one request. */
  datatype Env = Env(
    clientOk: bool,            // `storage.Client(...)` is constructed
    downloadOk: bool,          // the input's bucket and blob handles are made and the download succeeds
    inference: Inference,
    outputBucketOk: bool,      // the output bucket's handle is made
    failingUploads: set<nat>)  // positions, in listing order, of the uploads (blob handle and upload) that raise

  /** A call the handler makes to something outside it. */
  datatype Step =
    | MakeTempDir
    | Download(bucket: string, blob: string)  // handles and download of the input
    | Infer
    | Upload(bucket: string, blob: string)    // blob handle and upload of one output
    | RemoveTempDir

  /** The HTTP answer: the success envelope, or an error status. */
  datatype Response =
    | Success(inputGcsUri: string, outputGcsUris: seq<string>)
    | HttpError(status: int)

  /** A whole request: the answer and the calls made. */
  datatype Run = Run(response: Response, log: seq<Step>)

  /** The `try` block: the uploaded URIs, or `None` when something raised. */
  datatype BodyRun = BodyRun(uploaded: Option<seq<string>>, log: seq<Step>)

  /** Appended to the input's base name to name the destination folder. */
  const OutputSuffix := "_nnunet_output"

  /** The folder a run's files are uploaded under: the output prefix without
      surrounding '/', joined with the input file name without its last
      extension followed by "_nnunet_output". */
  function DestinationFolder(outputPrefix: string, inputFilename: string): (folder: string)
    ensures |OutputSuffix| <= |folder| && folder[|folder| - |OutputSuffix|..] == OutputSuffix
  {
    var name := Splitext(inputFilename).0 + OutputSuffix;
    JoinSpec(Strip(outputPrefix, '/'), name);
    assert name[|name| - |OutputSuffix|..] == OutputSuffix;
    Join(Strip(outputPrefix, '/'), name)
  }

  /** The URIs of the uploads of `files`, one per file, in listing order. */
  function UploadedUris(bucket: string, folder: string, files: seq<string>): (uris: seq<string>)
    ensures |uris| == |files|
  {
    if files == [] then []
    else UploadedUris(bucket, folder, files[..|files| - 1]) + [GcsUriOf(bucket, Join(folder, files[|files| - 1]))]
  }

  /** The upload calls for `files`, one per file, in listing order. */
  function UploadSteps(bucket: string, folder: string, files: seq<string>): (steps: seq<Step>)
    ensures |steps| == |files|
    ensures forall step :: step in steps ==> step.Upload?
  {
    if files == [] then []
    else UploadSteps(bucket, folder, files[..|files| - 1]) + [Upload(bucket, Join(folder, files[|files| - 1]))]
  }

  /** The `k`-th URI is that of the `k`-th file's upload. */
  lemma {:induction false} UploadedUrisAt(bucket: string, folder: string, files: seq<string>)
    ensures forall k :: 0 <= k < |files| ==> UploadedUris(bucket, folder, files)[k] == GcsUriOf(bucket, Join(folder, files[k]))
  {
    if files != [] {
      var init := files[..|files| - 1];
      UploadedUrisAt(bucket, folder, init);
      assert forall k :: 0 <= k < |init| ==> init[k] == files[k];
    }
  }

  /** The `k`-th upload call is that of the `k`-th file. */
  lemma {:induction false} UploadStepsAt(bucket: string, folder: string, files: seq<string>)
    ensures forall k :: 0 <= k < |files| ==> UploadSteps(bucket, folder, files)[k] == Upload(bucket, Join(folder, files[k]))
  {
    if files != [] {
      var init := files[..|files| - 1];
      UploadStepsAt(bucket, folder, init);
      assert forall k :: 0 <= k < |init| ==> init[k] == files[k];
    }
  }

  /** Uploading one more file appends its URI and its upload call. */
  lemma UploadOneMore(bucket: string, folder: string, files: seq<string>, i: nat)
    requires i < |files|
    ensures UploadedUris(bucket, folder, files[..i + 1])
         == UploadedUris(bucket, folder, files[..i]) + [GcsUriOf(bucket, Join(folder, files[i]))]
    ensures UploadSteps(bucket, folder, files[..i + 1])
         == UploadSteps(bucket, folder, files[..i]) + [Upload(bucket, Join(folder, files[i]))]
  {
    assert files[..i + 1][..i] == files[..i];
  }

  /** The first position in `from..n` whose upload raises, or `n` when none does. */
  function FirstFailing(failing: set<nat>, from: nat, n: nat): (k: nat)
    requires from <= n
    ensures from <= k <= n
    ensures k < n ==> k in failing
    ensures forall j :: from <= j < k ==> j !in failing
    decreases n - from
  {
    if from == n || from in failing then from else FirstFailing(failing, from + 1, n)
  }

  /** The steps are neither the creation nor the removal of the temporary directory. */
  predicate NoTempDirSteps(log: seq<Step>) {
    MakeTempDir !in log && RemoveTempDir !in log
  }

  /** The log opens by creating the temporary directory, closes by removing
      it, and neither happens in between. */
  predicate TempDirScoped(log: seq<Step>) {
    2 <= |log| && log[0] == MakeTempDir && log[|log| - 1] == RemoveTempDir
    && NoTempDirSteps(log[1..|log| - 1])
  }

  /** No upload was attempted. */
  predicate NoUploads(log: seq<Step>) {
    forall step :: step in log ==> !step.Upload?
  }

  /** The upload loop's outcome: every file is uploaded, in listing order,
      until the first upload that raises, which ends the loop after it was
      attempted. */
  function Uploads(bucket: string, folder: string, files: seq<string>, failing: set<nat>): (r: BodyRun)
    ensures NoTempDirSteps(r.log)
    ensures r.uploaded.Some? ==> |r.uploaded.value| == |files|
  {
    var k := FirstFailing(failing, 0, |files|);
    if k < |files| then BodyRun(None, UploadSteps(bucket, folder, files[..k + 1]))
    else BodyRun(Some(UploadedUris(bucket, folder, files)), UploadSteps(bucket, folder, files))
  }

  /** The upload part of the `try` block (app.py:122-148), once inference
      has listed `files`: no file is an error, and so are a malformed output
      prefix and an output bucket whose handle cannot be made; otherwise the
      files are uploaded under the destination folder. */
  function Publish(outputGcsPrefix: string, inputFilename: string, files: seq<string>, bucketOk: bool, failing: set<nat>): (r: BodyRun)
    ensures NoTempDirSteps(r.log)
    ensures files == [] || ParseGcsUri(outputGcsPrefix).None? || !bucketOk ==> r == BodyRun(None, [])
    ensures r.uploaded.Some? ==> |r.uploaded.value| == |files| > 0
  {
    if files == [] then BodyRun(None, [])
    else match ParseGcsUri(outputGcsPrefix)
      case None => BodyRun(None, [])
      case Some(output) =>
        if !bucketOk then BodyRun(None, [])
        else Uploads(output.bucket, DestinationFolder(output.blob, inputFilename), files, failing)
  }

  /** What the `try` block (app.py:89-159) does for one request. */
  function Body(request: Instance, env: Env): (r: BodyRun)
    ensures NoTempDirSteps(r.log)
    ensures r.uploaded.Some? ==> env.inference.Produced? && |r.uploaded.value| == |env.inference.files| > 0
  {
    if !env.clientOk then BodyRun(None, [])
    else match ParseGcsUri(request.inputGcsUri)
      case None => BodyRun(None, [])
      case Some(input) =>
        var fetch := Download(input.bucket, input.blob);
        if !env.downloadOk then BodyRun(None, [fetch])
        else match env.inference
          case InferenceFailed => BodyRun(None, [fetch, Infer])
          case Produced(files) =>
            var published := Publish(request.outputGcsPrefix, Basename(input.blob), files, env.outputBucketOk, env.failingUploads);
            BodyRun(published.uploaded, [fetch, Infer] + published.log)
  }

  /** What `predict` (app.py:72-170) does: 400 without instances; otherwise the
      first instance runs inside a temporary directory that is always removed,
      and anything raised becomes a 500. */
  function Handle(instances: seq<Instance>, env: Env): (r: Run)
    ensures |instances| == 0 <==> r.response == HttpError(400)
    ensures |instances| == 0 ==> r.log == []
    ensures |instances| > 0 ==> TempDirScoped(r.log)
    ensures r.response.Success? || r.response == HttpError(400) || r.response == HttpError(500)
    ensures r.response.Success? ==>
      r.response.inputGcsUri == instances[0].inputGcsUri && r.response.outputGcsUris != []
  {
    if |instances| == 0 then Run(HttpError(400), [])
    else
      var request := instances[0];
      var body := Body(request, env);
      var log := [MakeTempDir] + body.log + [RemoveTempDir];
      assert log[1..|log| - 1] == body.log;
      match body.uploaded
      case Some(uris) => Run(Success(request.inputGcsUri, uris), log)
      case None => Run(HttpError(500), log)
  }

  /** The upload loop (app.py:131-146): each produced file is uploaded, in
      listing order, to its name under `folder` and its URI appended; the
      first upload that raises ends the loop, after the uploads before it. */
  method UploadAll(bucket: string, folder: string, files: seq<string>, failing: set<nat>)
    returns (uploaded: Option<seq<string>>, ghost log: seq<Step>)
    ensures uploaded == Uploads(bucket, folder, files, failing).uploaded
    ensures log == Uploads(bucket, folder, files, failing).log
  {
    var uris: seq<string> := [];
    log := [];
    var i := 0;
    while i < |files|
      invariant 0 <= i <= |files|
      invariant forall j :: 0 <= j < i ==> j !in failing
      invariant uris == UploadedUris(bucket, folder, files[..i])
      invariant log == UploadSteps(bucket, folder, files[..i])
    {
      var blobName := Join(folder, files[i]);
      UploadOneMore(bucket, folder, files, i);
      log := log + [Upload(bucket, blobName)];
      if i in failing {
        assert FirstFailing(failing, 0, |files|) == i;
        return None, log;
      }
      uris := uris + [GcsUriOf(bucket, blobName)];
      i := i + 1;
    }
    assert files[..i] == files;
    assert FirstFailing(failing, 0, |files|) == |files|;
    return Some(uris), log;
  }

  /** The upload part of the `try` block (app.py:122-148), step by step. */
  method PublishOutputs(outputGcsPrefix: string, inputFilename: string, outputFiles: seq<string>, bucketOk: bool, failing: set<nat>)
    returns (uploaded: Option<seq<string>>, ghost log: seq<Step>)
    ensures uploaded == Publish(outputGcsPrefix, inputFilename, outputFiles, bucketOk, failing).uploaded
    ensures log == Publish(outputGcsPrefix, inputFilename, outputFiles, bucketOk, failing).log
  {
    if |outputFiles| == 0 {
      return None, [];
    }
    var parsedOutput := ParseGcsUri(outputGcsPrefix);
    if parsedOutput.None? {
      return None, [];
    }
    var output := parsedOutput.value;
    if !bucketOk {
      return None, [];
    }
    var folder := DestinationFolder(output.blob, inputFilename);
    uploaded, log := UploadAll(output.bucket, folder, outputFiles, failing);
  }

  /** The `try` block (app.py:89-159), one step after the other. */
  method RunBody(request: Instance, env: Env) returns (uploaded: Option<seq<string>>, ghost log: seq<Step>)
    ensures uploaded == Body(request, env).uploaded
    ensures log == Body(request, env).log
  {
    if !env.clientOk {
      return None, [];
    }
    var parsedInput := ParseGcsUri(request.inputGcsUri);
    if parsedInput.None? {
      return None, [];
    }
    var input := parsedInput.value;
    var inputFilename := Basename(input.blob);
    var fetch := Download(input.bucket, input.blob);
    if !env.downloadOk {
      return None, [fetch];
    }
    if env.inference.InferenceFailed? {
      return None, [fetch, Infer];
    }
    var files := env.inference.files;
    ghost var uploadLog: seq<Step>;
    uploaded, uploadLog := PublishOutputs(request.outputGcsPrefix, inputFilename, files, env.outputBucketOk, env.failingUploads);
    assert Body(request, env) == BodyRun(uploaded, [fetch, Infer] + uploadLog);
    log := [fetch, Infer] + uploadLog;
  }

  /** The handler: the answer and the log are those `Handle` specifies. */
  method Predict(instances: seq<Instance>, env: Env) returns (response: Response, ghost log: seq<Step>)
    ensures response == Handle(instances, env).response
    ensures log == Handle(instances, env).log
  {
    if |instances| == 0 {
      return HttpError(400), [];
    }
    var request := instances[0];
    log := [MakeTempDir];
    var uploaded;
    ghost var bodyLog;
    uploaded, bodyLog := RunBody(request, env);
    log := log + bodyLog + [RemoveTempDir];
    if uploaded.Some? {
      response := Success(request.inputGcsUri, uploaded.value);
    } else {
      response := HttpError(500);
    }
  }
}
