/** What `predict` promises, stated over its specification `Handle`. */
module PredictProperties {
  import opened PyStr
  import opened PosixPath
  import opened GcsUri
  import opened Predict

  /** Every call the handler makes succeeds for this request. */
  predicate AllStepsSucceed(request: Instance, env: Env) {
    && env.clientOk
    && ParseGcsUri(request.inputGcsUri).Some?
    && env.downloadOk
    && env.inference.Produced?
    && env.inference.files != []
    && ParseGcsUri(request.outputGcsPrefix).Some?
    && env.outputBucketOk
    && forall k :: 0 <= k < |env.inference.files| ==> k !in env.failingUploads
  }

  /** `Handle` in terms of the `try` block: its log between the creation and
      the removal of the temporary directory, and a 500 when it raised. */
  lemma HandleUnfold(instances: seq<Instance>, env: Env)
    requires |instances| > 0
    ensures var body := Body(instances[0], env);
      Handle(instances, env) ==
        Run(if body.uploaded.Some? then Success(instances[0].inputGcsUri, body.uploaded.value) else HttpError(500),
            [MakeTempDir] + body.log + [RemoveTempDir])
  {
  }

  /** `Body` once the input is downloaded and inference has listed its files. */
  lemma BodyUnfold(request: Instance, env: Env)
    requires env.clientOk && ParseGcsUri(request.inputGcsUri).Some? && env.downloadOk && env.inference.Produced?
    ensures var input := ParseGcsUri(request.inputGcsUri).value;
      var published := Publish(request.outputGcsPrefix, Basename(input.blob), env.inference.files, env.outputBucketOk, env.failingUploads);
      Body(request, env) == BodyRun(published.uploaded, [Download(input.bucket, input.blob), Infer] + published.log)
  {
  }

  /** Creating and removing the temporary directory are not uploads. */
  lemma NoUploadsAround(log: seq<Step>)
    requires NoUploads(log)
    ensures NoUploads([MakeTempDir] + log + [RemoveTempDir])
  {
    var whole := [MakeTempDir] + log + [RemoveTempDir];
    assert forall k :: 0 < k < |whole| - 1 ==> whole[k] == log[k - 1];
  }

  /** The log of a request that reached the uploads, regrouped. */
  lemma Regroup(fetch: Step, uploads: seq<Step>)
    ensures [MakeTempDir] + ([fetch, Infer] + uploads) + [RemoveTempDir]
         == [MakeTempDir, fetch, Infer] + uploads + [RemoveTempDir]
  {
  }

  /** Only the first instance is handled: whatever follows it changes neither
      the answer nor the calls made. */
  lemma OnlyFirstInstance(instances: seq<Instance>, env: Env)
    requires |instances| > 0
    ensures Handle(instances, env) == Handle(instances[..1], env)
  {
    assert instances[..1][0] == instances[0];
  }

  /** The answer is the success envelope exactly when every step succeeds;
      any step that raises gives a 500. */
  lemma SuccessExactlyWhenAllStepsSucceed(instances: seq<Instance>, env: Env)
    requires |instances| > 0
    ensures Handle(instances, env).response.Success? <==> AllStepsSucceed(instances[0], env)
    ensures !AllStepsSucceed(instances[0], env) ==> Handle(instances, env).response == HttpError(500)
  {
    var request := instances[0];
    if AllStepsSucceed(request, env) {
      SuccessfulRun(instances, env);
    } else {
      FailingStepRaises(request, env);
      HandleUnfold(instances, env);
    }
  }

  /** A step that fails makes the `try` block raise. */
  lemma FailingStepRaises(request: Instance, env: Env)
    requires !AllStepsSucceed(request, env)
    ensures Body(request, env).uploaded.None?
  {
    if env.clientOk && ParseGcsUri(request.inputGcsUri).Some? && env.downloadOk && env.inference.Produced? {
      BodyUnfold(request, env);
      var files := env.inference.files;
      var output := ParseGcsUri(request.outputGcsPrefix);
      if files != [] && output.Some? && env.outputBucketOk {
        var j :| 0 <= j < |files| && j in env.failingUploads;
        FailingUploadRaises(output.value.bucket, DestinationFolder(output.value.blob, Basename(ParseGcsUri(request.inputGcsUri).value.blob)), files, env.failingUploads, j);
      }
    }
  }

  /** An upload that raises, at any position, makes the loop raise. */
  lemma FailingUploadRaises(bucket: string, folder: string, files: seq<string>, failing: set<nat>, j: nat)
    requires j < |files| && j in failing
    ensures Uploads(bucket, folder, files, failing).uploaded.None?
  {
    assert FirstFailing(failing, 0, |files|) <= j;
  }

  /** `Publish` when no upload raises: every file is uploaded. */
  lemma PublishSucceeds(outputGcsPrefix: string, inputFilename: string, files: seq<string>, failing: set<nat>)
    requires ParseGcsUri(outputGcsPrefix).Some? && files != []
    requires forall j :: 0 <= j < |files| ==> j !in failing
    ensures var output := ParseGcsUri(outputGcsPrefix).value;
      var folder := DestinationFolder(output.blob, inputFilename);
      Publish(outputGcsPrefix, inputFilename, files, true, failing)
        == BodyRun(Some(UploadedUris(output.bucket, folder, files)), UploadSteps(output.bucket, folder, files))
  {
    var output := ParseGcsUri(outputGcsPrefix).value;
    UploadsSucceed(output.bucket, DestinationFolder(output.blob, inputFilename), files, failing);
  }

  /** No upload raises: every file is uploaded and its URI listed. */
  lemma UploadsSucceed(bucket: string, folder: string, files: seq<string>, failing: set<nat>)
    requires forall j :: 0 <= j < |files| ==> j !in failing
    ensures Uploads(bucket, folder, files, failing)
         == BodyRun(Some(UploadedUris(bucket, folder, files)), UploadSteps(bucket, folder, files))
  {
    assert FirstFailing(failing, 0, |files|) == |files|;
  }

  /** On success every produced file was uploaded, in listing order, and the
      answer lists one URI per file, in the same order: the URI of its name
      under the destination folder in the output bucket. */
  lemma SuccessfulRun(instances: seq<Instance>, env: Env)
    requires |instances| > 0 && AllStepsSucceed(instances[0], env)
    ensures
      var request := instances[0];
      var input := ParseGcsUri(request.inputGcsUri).value;
      var output := ParseGcsUri(request.outputGcsPrefix).value;
      var files := env.inference.files;
      var folder := DestinationFolder(output.blob, Basename(input.blob));
      var r := Handle(instances, env);
      && r.response == Success(request.inputGcsUri, UploadedUris(output.bucket, folder, files))
      && r.log == [MakeTempDir, Download(input.bucket, input.blob), Infer]
                  + UploadSteps(output.bucket, folder, files) + [RemoveTempDir]
  {
    var request := instances[0];
    var files := env.inference.files;
    var input := ParseGcsUri(request.inputGcsUri).value;
    var output := ParseGcsUri(request.outputGcsPrefix).value;
    var folder := DestinationFolder(output.blob, Basename(input.blob));
    PublishSucceeds(request.outputGcsPrefix, Basename(input.blob), files, env.failingUploads);
    BodyUnfold(request, env);
    HandleUnfold(instances, env);
    Regroup(Download(input.bucket, input.blob), UploadSteps(output.bucket, folder, files));
  }

  /** The text before the run's folder: the stripped output prefix and a '/',
      or nothing when the prefix is empty or only '/'. */
  function PrefixPart(outputPrefix: string): string {
    var stripped := Strip(outputPrefix, '/');
    if stripped == [] then "" else stripped + "/"
  }

  /** Joining a relative name to a folder that is empty or does not end in
      '/' puts exactly one '/' between them, or nothing after an empty folder. */
  lemma JoinRelative(folder: string, name: string)
    requires folder == [] || folder[|folder| - 1] != '/'
    requires name == [] || name[0] != '/'
    ensures Join(folder, name) == (if folder == [] then name else folder + "/" + name)
  {
  }

  /** The destination folder, written out: the stripped prefix and a '/',
      then the input's base name and "_nnunet_output". */
  lemma FolderShape(outputPrefix: string, inputFilename: string)
    requires '/' !in inputFilename
    ensures DestinationFolder(outputPrefix, inputFilename)
         == PrefixPart(outputPrefix) + Splitext(inputFilename).0 + OutputSuffix
  {
    var stripped := Strip(outputPrefix, '/');
    var root := Splitext(inputFilename).0;
    assert DestinationFolder(outputPrefix, inputFilename) == Join(stripped, root + OutputSuffix);
    FolderNameRelative(inputFilename);
    JoinAfterPrefix(PrefixPart(outputPrefix), stripped, root, OutputSuffix);
  }

  /** Joining `root + suffix` to a stripped prefix gives the prefix part, then `root + suffix`. */
  lemma JoinAfterPrefix(prefixPart: string, stripped: string, root: string, suffix: string)
    requires prefixPart == if stripped == [] then "" else stripped + "/"
    requires stripped == [] || stripped[|stripped| - 1] != '/'
    requires root + suffix != [] && (root + suffix)[0] != '/'
    ensures Join(stripped, root + suffix) == prefixPart + root + suffix
  {
    JoinRelative(stripped, root + suffix);
    if stripped == [] {
      assert prefixPart + root + suffix == root + suffix;
    }
  }

  /** The folder's own name does not start with '/' when the input file name has none. */
  lemma FolderNameRelative(inputFilename: string)
    requires '/' !in inputFilename
    ensures (Splitext(inputFilename).0 + OutputSuffix)[0] != '/'
  {
    var root := Splitext(inputFilename).0;
    if root != [] {
      assert root[0] == (root + Splitext(inputFilename).1)[0];
    }
  }

  /** The blob a produced file goes to, written out: the stripped prefix,
      the input's base name, "_nnunet_output", '/', and the file name. */
  lemma DestinationShape(outputPrefix: string, inputFilename: string, filename: string)
    requires '/' !in inputFilename && '/' !in filename
    ensures Join(DestinationFolder(outputPrefix, inputFilename), filename)
         == PrefixPart(outputPrefix) + Splitext(inputFilename).0 + OutputSuffix + "/" + filename
  {
    var folder := DestinationFolder(outputPrefix, inputFilename);
    FolderShape(outputPrefix, inputFilename);
    assert folder[|folder| - 1] == 't';
    JoinRelative(folder, filename);
  }

  /** The URIs of a run's uploads, written out. */
  lemma UploadedUrisShape(bucket: string, outputPrefix: string, inputFilename: string, files: seq<string>)
    requires '/' !in inputFilename
    requires forall f :: f in files ==> '/' !in f
    ensures var uris := UploadedUris(bucket, DestinationFolder(outputPrefix, inputFilename), files);
      forall k :: 0 <= k < |files| ==>
        uris[k] == GcsUriOf(bucket, PrefixPart(outputPrefix) + Splitext(inputFilename).0 + OutputSuffix + "/" + files[k])
  {
    var uris := UploadedUris(bucket, DestinationFolder(outputPrefix, inputFilename), files);
    UploadedUrisAt(bucket, DestinationFolder(outputPrefix, inputFilename), files);
    forall k | 0 <= k < |files|
      ensures uris[k] == GcsUriOf(bucket, PrefixPart(outputPrefix) + Splitext(inputFilename).0 + OutputSuffix + "/" + files[k])
    {
      assert files[k] in files;
      DestinationShape(outputPrefix, inputFilename, files[k]);
    }
  }

  /** The URIs of the uploads of a run whose input blob is `inputBlob`, written out. */
  lemma UploadedUrisOfBlob(uris: seq<string>, bucket: string, outputPrefix: string, inputBlob: string, files: seq<string>)
    requires uris == UploadedUris(bucket, DestinationFolder(outputPrefix, Basename(inputBlob)), files)
    requires forall f :: f in files ==> '/' !in f
    ensures |uris| == |files|
    ensures forall k :: 0 <= k < |files| ==>
      uris[k] == GcsUriOf(bucket, PrefixPart(outputPrefix) + Splitext(Basename(inputBlob)).0 + OutputSuffix + "/" + files[k])
  {
    UploadedUrisShape(bucket, outputPrefix, Basename(inputBlob), files);
  }

  /** Written out, each URI of a successful answer is
      "gs://" + output bucket + "/" + stripped prefix + "/" + base name
      + "_nnunet_output/" + file name (the produced files are directory
      entries, so their names hold no '/'). */
  lemma SuccessfulUris(instances: seq<Instance>, env: Env)
    requires |instances| > 0 && AllStepsSucceed(instances[0], env)
    requires forall f :: f in env.inference.files ==> '/' !in f
    ensures
      var request := instances[0];
      var input := ParseGcsUri(request.inputGcsUri).value;
      var output := ParseGcsUri(request.outputGcsPrefix).value;
      var base := Splitext(Basename(input.blob)).0;
      var files := env.inference.files;
      var response := Handle(instances, env).response;
      && response.Success?
      && var uris := response.outputGcsUris;
      && |uris| == |files|
      && forall k :: 0 <= k < |files| ==>
           uris[k] == GcsUriOf(output.bucket, PrefixPart(output.blob) + base + OutputSuffix + "/" + files[k])
  {
    var request := instances[0];
    var input := ParseGcsUri(request.inputGcsUri).value;
    var output := ParseGcsUri(request.outputGcsPrefix).value;
    SuccessfulRun(instances, env);
    UploadedUrisOfBlob(Handle(instances, env).response.outputGcsUris, output.bucket, output.blob, input.blob, env.inference.files);
  }

  /** No produced file: a 500, and no upload is attempted. */
  lemma NoOutputFilesFails(instances: seq<Instance>, env: Env)
    requires |instances| > 0 && env.inference == Produced([])
    ensures Handle(instances, env).response == HttpError(500)
    ensures NoUploads(Handle(instances, env).log)
  {
    var body := Body(instances[0], env);
    NoFilesNoUploads(instances[0], env);
    HandleUnfold(instances, env);
    NoUploadsAround(body.log);
  }

  /** The `try` block when inference lists no file: it raises before any upload. */
  lemma NoFilesNoUploads(request: Instance, env: Env)
    requires env.inference == Produced([])
    ensures Body(request, env).uploaded == None
    ensures NoUploads(Body(request, env).log)
  {
    if env.clientOk && ParseGcsUri(request.inputGcsUri).Some? && env.downloadOk {
      NoFilesAfterInference(request, env);
    } else {
      FailureBeforeInference(request, env);
    }
  }

  /** The `try` block when inference lists no file after a download. */
  lemma NoFilesAfterInference(request: Instance, env: Env)
    requires env.clientOk && ParseGcsUri(request.inputGcsUri).Some? && env.downloadOk
    requires env.inference == Produced([])
    ensures var input := ParseGcsUri(request.inputGcsUri).value;
      Body(request, env) == BodyRun(None, [Download(input.bucket, input.blob), Infer])
  {
    var input := ParseGcsUri(request.inputGcsUri).value;
    BodyUnfold(request, env);
    assert [Download(input.bucket, input.blob), Infer] + [] == [Download(input.bucket, input.blob), Infer];
  }

  /** The `try` block when the client, the input URI or the download fails:
      nothing but the download is attempted. */
  lemma FailureBeforeInference(request: Instance, env: Env)
    requires !(env.clientOk && ParseGcsUri(request.inputGcsUri).Some? && env.downloadOk)
    ensures Body(request, env).uploaded == None
    ensures |Body(request, env).log| <= 1
    ensures forall step :: step in Body(request, env).log ==> step.Download?
  {
  }

  /** A failed download: a 500, no inference and no upload, and the temporary
      directory is still removed. */
  lemma DownloadFailureStops(instances: seq<Instance>, env: Env)
    requires |instances| > 0 && !env.downloadOk
    ensures var r := Handle(instances, env);
      && r.response == HttpError(500)
      && Infer !in r.log
      && NoUploads(r.log)
      && r.log[|r.log| - 1] == RemoveTempDir
  {
  }

  /** A failed inference: a 500 and no upload. */
  lemma InferenceFailureStops(instances: seq<Instance>, env: Env)
    requires |instances| > 0 && env.inference == InferenceFailed
    ensures Handle(instances, env).response == HttpError(500)
    ensures NoUploads(Handle(instances, env).log)
  {
    var body := Body(instances[0], env);
    assert body.uploaded.None? && NoUploads(body.log);
    HandleUnfold(instances, env);
    NoUploadsAround(body.log);
  }

  /** The output bucket's handle cannot be made: a 500 and no upload. */
  lemma OutputBucketFailureStops(instances: seq<Instance>, env: Env)
    requires |instances| > 0 && !env.outputBucketOk
    ensures Handle(instances, env).response == HttpError(500)
    ensures NoUploads(Handle(instances, env).log)
  {
    var request := instances[0];
    var body := Body(request, env);
    if env.clientOk && ParseGcsUri(request.inputGcsUri).Some? && env.downloadOk && env.inference.Produced? {
      BodyUnfold(request, env);
      var input := ParseGcsUri(request.inputGcsUri).value;
      assert body.log == [Download(input.bucket, input.blob), Infer] + [];
    }
    assert body.uploaded.None? && NoUploads(body.log);
    HandleUnfold(instances, env);
    NoUploadsAround(body.log);
  }

  /** `Publish` when the upload at position `k` is the first that raises. */
  lemma PublishFailsAt(outputGcsPrefix: string, inputFilename: string, files: seq<string>, failing: set<nat>, k: nat)
    requires ParseGcsUri(outputGcsPrefix).Some?
    requires k < |files| && k in failing
    requires forall j :: 0 <= j < k ==> j !in failing
    ensures var output := ParseGcsUri(outputGcsPrefix).value;
      Publish(outputGcsPrefix, inputFilename, files, true, failing)
        == BodyRun(None, UploadSteps(output.bucket, DestinationFolder(output.blob, inputFilename), files[..k + 1]))
  {
    var output := ParseGcsUri(outputGcsPrefix).value;
    UploadsFailAt(output.bucket, DestinationFolder(output.blob, inputFilename), files, failing, k);
  }

  /** The upload at position `k` is the first that raises: the uploads up to
      and including it are attempted, and no URI list is produced. */
  lemma UploadsFailAt(bucket: string, folder: string, files: seq<string>, failing: set<nat>, k: nat)
    requires k < |files| && k in failing
    requires forall j :: 0 <= j < k ==> j !in failing
    ensures Uploads(bucket, folder, files, failing) == BodyRun(None, UploadSteps(bucket, folder, files[..k + 1]))
  {
    assert FirstFailing(failing, 0, |files|) == k;
  }

  /** An upload that raises ends the request with a 500 after the uploads
      before it have happened: those stay in the output bucket. */
  lemma UploadFailureKeepsEarlierUploads(instances: seq<Instance>, env: Env, k: nat)
    requires |instances| > 0
    requires env.clientOk && env.downloadOk && env.inference.Produced?
    requires ParseGcsUri(instances[0].inputGcsUri).Some? && ParseGcsUri(instances[0].outputGcsPrefix).Some?
    requires env.outputBucketOk
    requires k < |env.inference.files| && k in env.failingUploads
    requires forall j :: 0 <= j < k ==> j !in env.failingUploads
    ensures
      var input := ParseGcsUri(instances[0].inputGcsUri).value;
      var output := ParseGcsUri(instances[0].outputGcsPrefix).value;
      var folder := DestinationFolder(output.blob, Basename(input.blob));
      var r := Handle(instances, env);
      && r.response == HttpError(500)
      && r.log == [MakeTempDir, Download(input.bucket, input.blob), Infer]
                  + UploadSteps(output.bucket, folder, env.inference.files[..k + 1]) + [RemoveTempDir]
  {
    var request := instances[0];
    var input := ParseGcsUri(request.inputGcsUri).value;
    var output := ParseGcsUri(request.outputGcsPrefix).value;
    var folder := DestinationFolder(output.blob, Basename(input.blob));
    PublishFailsAt(request.outputGcsPrefix, Basename(input.blob), env.inference.files, env.failingUploads, k);
    BodyUnfold(request, env);
    HandleUnfold(instances, env);
    Regroup(Download(input.bucket, input.blob), UploadSteps(output.bucket, folder, env.inference.files[..k + 1]));
  }
}
