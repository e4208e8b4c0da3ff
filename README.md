# nnU-Net inference on Cloud Storage: the `/predict` handler

This project models the core of a small FastAPI service. The service runs
nnU-Net segmentation on medical images kept in Google Cloud Storage.

A request to `/predict` carries a list of `instances`. Each instance holds an
input object URI (`gs://bucket/blob`) and an output prefix (also a `gs://`
URI). The handler works as follows:

- It answers 400 when the list is empty.
- Otherwise it takes the first instance and creates a temporary directory.
- It parses the input URI, downloads the object and runs the predictor.
- It lists the files inference produced and uploads each one under a
  destination folder. The folder is derived from the output prefix and the
  input's base name.
- It answers with the URIs of the uploaded objects.
- Anything that raises on the way becomes a 500.
- The temporary directory is removed in every case.

The model has five modules:

- `PyStr` (`pystr.dfy`) gives the Python `str` operations the handler uses,
  with CPython's semantics: `split(sep, 1)`, `replace` and `strip`, with
  `lstrip` and `rstrip`. It also gives the one-character searches that
  `split` and `posixpath` perform inside (`Find`, `RFind`).
- `PosixPath` (`posix_path.dfy`) gives `os.path.basename`, `os.path.splitext`
  and `os.path.join` as `posixpath` defines them.
- `GcsUri` (`gcs_uri.dfy`) gives `parse_gcs_uri`, with its error as `None`,
  and the URI the handler writes for an uploaded object.
- `Predict` (`predict.dfy`) holds the handler in two forms:
  - specification functions `Handle`, `Body`, `Publish` and `Uploads`;
  - methods `Predict`, `RunBody`, `PublishOutputs` and `UploadAll`, which are
    written step by step, loop included, and proved equal to those functions.
- `PredictProperties` (`predict_properties.dfy`) proves what the handler
  promises, stated over `Handle`.

The storage client, the predictor and the file system are parameters of the
handler. An `Env` value says how each call turns out for one request:

- whether the client is constructed;
- whether the download succeeds;
- whether the output bucket's handle is made;
- whether inference raises, and otherwise which file names the output
  directory lists;
- which upload positions raise.

The handler records each outside call (temporary directory, download,
inference, upload, removal) in a ghost log. The properties speak about that
log and the HTTP answer.

The model follows app.py where a reader might expect otherwise:

- **Scheme deletion.** `parse_gcs_uri` deletes every occurrence of `gs://`,
  not only the leading one. `ParseDeletesInnerScheme` and
  `ParseExampleInnerScheme` show this.
- **Destination blob name.** The blob name is not simply the prefix as
  given, then `<base>_nnunet_output`, then the file name:
  - the prefix loses its surrounding '/' first;
  - an empty or all-'/' prefix adds no separator at all (`PrefixPart`,
    `SuccessfulUris`).
- **Failed uploads.** A request whose upload fails part-way is not
  all-or-nothing. The uploads before the failing one stay in the bucket
  (`UploadFailureKeepsEarlierUploads`).

## Model

| member | source | states |
|---|---|---|
| PyStr.Find | app.py:66 | the search `split("/", 1)` makes for its separator: -1 when the character does not occur, otherwise an index holding it with no earlier occurrence |
| PyStr.RFind | app.py:94 | the search `os.path.basename` and `os.path.splitext` make for the last '/' or '.': -1 when the character does not occur, otherwise an index holding it with no later occurrence |
| PyStr.SplitOnce | app.py:66 | `split(sep, 1)`: one part, the whole string, exactly when `sep` is absent; otherwise a `sep`-free head and the rest, which put back together with `sep` give the input |
| PyStr.Replace | app.py:66 | `replace` never lengthens a string when the replacement is no longer than the target (deleting "gs://" only shortens), and a string without the target's first character comes back unchanged |
| PyStr.ReplaceKeepsPrefix | app.py:66 | text in which no occurrence of the target starts passes through `replace` unchanged, and the rest is replaced on its own |
| PyStr.ReplaceAbsent | app.py:66 | `replace` changes nothing when the target does not occur |
| PyStr.ReplaceSkips | app.py:66 | text without the target's first character passes through `replace` unchanged |
| PyStr.LStrip | app.py:138 | `lstrip(c)` is never longer than its input and never starts with `c` |
| PyStr.RStrip | app.py:138 | `rstrip(c)` is never longer than its input and never ends with `c` |
| PyStr.Strip | app.py:138 | `strip("/")` is never longer than its input and neither starts nor ends with '/' |
| PyStr.LStripSpec | app.py:138 | `lstrip(c)` returns a suffix of the input: it drops a run made only of `c`, and the result does not start with `c` |
| PyStr.RStripSpec | app.py:138 | `rstrip(c)` returns a prefix of the input: it drops a run made only of `c`, and the result does not end with `c` |
| PyStr.StripSpec | app.py:138 | `strip("/")` leaves a slice of the input with only '/' around it and no '/' at either end |
| PosixPath.Basename | app.py:94 | `os.path.basename` is the longest '/'-free suffix of the path: a '/'-free suffix that is the whole path or follows a '/' |
| PosixPath.BasenameOfName | app.py:94 | a name without '/' is its own basename |
| PosixPath.Splitext | app.py:135 | `os.path.splitext` cuts the path in two, and the extension is empty or starts with '.' |
| PosixPath.SplitextSpec | app.py:135 | `os.path.splitext` cuts the path in two; the extension is empty, or a '.' followed by text without '.' or '/' |
| PosixPath.SplitextFindsExtension | app.py:135 | `splitext` finds an extension exactly when the last component has a '.' after a character other than '.' (a leading-dots name such as ".bashrc" keeps its dot) |
| PosixPath.SplitextFoundInBasename | app.py:135 | an extension that `splitext` finds lies in the last path component |
| PosixPath.BasenameExtensionFound | app.py:135 | an extension of the last component is always found |
| PosixPath.SplitextAtLastDot | app.py:135 | "seg.nii" + "." + "gz"-style names split at their last '.' |
| PosixPath.JoinSpec | app.py:138-139 | `os.path.join(a, b)` is `b` itself when `b` is absolute; otherwise it is `a`, then `b`, with a '/' between them exactly when `a` is not empty and does not already end in '/' |
| GcsUri.GcsUriOf | app.py:146 | every URI the handler writes starts with "gs://", so `parse_gcs_uri` accepts it |
| GcsUri.ParseGcsUri | app.py:62-69 | the ValueError (`None`) is raised exactly when the URI does not start with "gs://"; a parsed bucket name never holds '/' |
| GcsUri.ParseGcsUriParts | app.py:66-68 | once the schemes are deleted, the rest is the bucket, '/' and the blob, or the bucket alone with an empty blob |
| GcsUri.SplitAtFirstSlash | app.py:66 | splitting at the first '/' gives back a '/'-free head and the whole tail, later '/' included |
| GcsUri.ParseRoundTrip | app.py:66-69 | the URI written for an upload parses back to its bucket and blob when the scheme does not reappear in them |
| GcsUri.SchemeNotAcrossBucket | app.py:66 | no "gs://" can straddle the '/' after a bucket name without ':' or '/' |
| GcsUri.ParseRoundTripBucketName | app.py:66-69 | the round trip holds for every valid bucket name once the blob name holds no "gs://" |
| GcsUri.ParseBucketOnly | app.py:66-68 | a URI naming only a bucket parses with an empty blob name |
| GcsUri.NoSchemeBeforeInner | app.py:66 | no "gs://" starts inside scheme-free text followed by a "gs://", so the scan reaches the second one intact |
| GcsUri.ParseDeletesInnerScheme | app.py:66 | for any valid bucket name (no '/' or ':') and scheme-free text around it, a "gs://" inside the blob name is deleted too, so the name comes back without it |
| GcsUri.ParseExampleInnerScheme | app.py:66 | "gs://b/x/gs://y" names blob "x/y" of bucket "b" |
| GcsUri.ParseNestedScheme | app.py:66-68 | bucket "gs:" with blob "/" + name parses as the bucket `name`, so the round trip needs a condition |
| Predict.DestinationFolder | app.py:135-138 | the folder a run's files go to always ends in "_nnunet_output" |
| Predict.UploadedUris | app.py:131-146 | one URI per produced file |
| Predict.UploadSteps | app.py:131-146 | one upload call per produced file, and nothing but uploads |
| Predict.UploadedUrisAt | app.py:139-146 | the k-th URI is "gs://" + bucket + "/" + the k-th file's name joined to the folder |
| Predict.UploadStepsAt | app.py:139-144 | the k-th upload call writes the k-th file to its name under the folder |
| Predict.UploadOneMore | app.py:131-146 | one more loop iteration appends exactly one URI and one upload call |
| Predict.FirstFailing | app.py:131-146 | the first upload position that raises, or the number of files when none does; no earlier position raises |
| Predict.Uploads | app.py:131-146 | the loop never touches the temporary directory, and when it completes it has one URI per file |
| Predict.UploadAll | app.py:126-146 | the loop, run step by step, yields the URIs and the upload calls `Uploads` specifies, stopping at the first upload that raises |
| Predict.Publish | app.py:122-148 | no produced file, a malformed output prefix or an output bucket handle that cannot be made raises before any upload; when the URIs come back there is one per produced file and at least one |
| Predict.PublishOutputs | app.py:122-148 | the listing check, the output parse and the loop, step by step, agree with `Publish` |
| Predict.Body | app.py:88-165 | the `try` block never touches the temporary directory, and it yields URIs only when inference produced files, one URI per file |
| Predict.RunBody | app.py:88-165 | the `try` block, step by step, agrees with `Body` |
| Predict.Handle | app.py:72-170 | 400 with no call exactly when there are no instances; otherwise the calls open with the temporary directory's creation and close with its removal; the answer is success, 400 or 500; a success echoes the input URI and lists at least one URI |
| Predict.Predict | app.py:72-170 | the handler, step by step, agrees with `Handle` |
| PredictProperties.OnlyFirstInstance | app.py:85 | instances after the first change neither the answer nor the calls made |
| PredictProperties.SuccessExactlyWhenAllStepsSucceed | app.py:88-165 | the answer is success exactly when the client, both URI parses, the download, inference, a non-empty listing, the output bucket handle and every upload succeed; otherwise it is 500 |
| PredictProperties.FailingStepRaises | app.py:88-146 | when any step fails (client, input parse, download, inference, empty listing, output parse, output bucket handle, or an upload), the `try` block raises and returns no URIs |
| PredictProperties.FailingUploadRaises | app.py:131-146 | an upload that raises at any position means the loop returns no URIs |
| PredictProperties.SuccessfulRun | app.py:126-159 | on success: the answer lists the URI of every produced file, in listing order; the calls are the directory's creation, the download, inference, one upload per file in the same order, and the removal |
| PredictProperties.PublishSucceeds | app.py:128-146 | with no failing upload, the publishing section uploads every file and returns every URI |
| PredictProperties.UploadsSucceed | app.py:131-146 | with no failing upload, the loop uploads every file and returns every URI |
| PredictProperties.FolderShape | app.py:135-138 | the destination folder is the stripped prefix and '/' (nothing when the prefix strips to empty), the input's name without extension, then "_nnunet_output" |
| PredictProperties.DestinationShape | app.py:135-139 | an output's blob name is that folder, '/', then the file name |
| PredictProperties.UploadedUrisShape | app.py:135-146 | each listed URI, written out from the bucket, the prefix, the input's name and the file name |
| PredictProperties.UploadedUrisOfBlob | app.py:94 | the same, starting from the input's blob name |
| PredictProperties.SuccessfulUris | app.py:93-159 | a successful answer's k-th URI is "gs://" + output bucket + "/" + stripped prefix and '/' + input base name + "_nnunet_output/" + the k-th file name |
| PredictProperties.NoOutputFilesFails | app.py:122-124 | an empty listing gives a 500 and no upload is attempted |
| PredictProperties.NoFilesNoUploads | app.py:122-124 | an empty listing: the `try` block raises before any upload |
| PredictProperties.NoFilesAfterInference | app.py:122-124 | an empty listing after a download: the calls are exactly the download and inference |
| PredictProperties.FailureBeforeInference | app.py:90-106 | when the client, the input parse or the download fails, the `try` block raises with at most the download attempted |
| PredictProperties.DownloadFailureStops | app.py:104-106 | a failed download gives a 500 with no inference and no upload, and the temporary directory is still removed |
| PredictProperties.InferenceFailureStops | app.py:111-118 | a failed inference gives a 500 with no upload |
| PredictProperties.OutputBucketFailureStops | app.py:128-129 | when the output bucket's handle cannot be made, the answer is 500 and no upload is attempted |
| PredictProperties.PublishFailsAt | app.py:131-146 | when upload k is the first to raise, the publishing section attempts uploads 0..k and returns no URIs |
| PredictProperties.UploadsFailAt | app.py:131-146 | when upload k is the first to raise, the loop attempts uploads 0..k and returns no URIs |
| PredictProperties.UploadFailureKeepsEarlierUploads | app.py:131-146 | a raising upload gives a 500 after the uploads before it (and the failing one) were made, and the directory is removed |

## Left out

- The FastAPI and Pydantic glue is not modelled. This covers request
  validation, the `/health` and `/` routes and the startup hook
  (app.py:43-60, app.py:172-174). A request is a sequence of `Instance`
  values.
- `initialize_predictor` and the nnU-Net predictor are not part of this
  model, nor is PyTorch. Inference is an abstract outcome in `Env`: it
  raises, or it lists output file names.
- Cloud Storage I/O is reduced to the outcome of each call:
  - the client constructor is `clientOk`;
  - the input's bucket and blob handles and the download (app.py:104-106)
    are one outcome, `downloadOk`; a `Download` step stands for all three,
    so a run whose handle raises logs the download as attempted;
  - the output bucket's handle (app.py:129) is `outputBucketOk`;
  - each output's blob handle and upload (app.py:143-144) are one outcome,
    membership of its position in `failingUploads`.

  File contents are not modelled. Neither are authentication and the
  project ID.
- Local file-system work is assumed to succeed and is not logged:
  - `os.makedirs` and the local paths (app.py:96-101, app.py:132);
  - `os.listdir` of the output directory (app.py:122), whose listing is
    taken from the inference outcome;
  - `shutil.rmtree` in the `finally` block (app.py:170). If it raised, that
    error would replace whatever answer the request had, a success included.
    The model always keeps the answer.
- The `os.path.exists` test before `rmtree` is not modelled
  (app.py:169). The removal is recorded unconditionally.
- A `mkdtemp` failure, which happens outside the `try`, is not modelled
  (app.py:87).
- `os.listdir` order is taken as given. The model keeps that order and
  does not sort.
- The following are not modelled: error message text, the `timestamp`
  field of the success envelope, `print` and `traceback` output. A response
  is `Success(inputGcsUri, outputGcsUris)` or an HTTP status.
- The destination folder is computed once, before the
  upload loop. app.py recomputes it on every iteration from values the loop
  does not change, so the blob names are the same.
- PyStr.Replace: an empty target is not modelled (CPython inserts the
  replacement between characters). The handler only replaces "gs://".
- Concurrency between requests is not modelled. Neither is the shared
  global predictor.
- The test scripts (test_local.py, test_remote_endpoint.py) are not part
  of this model.
