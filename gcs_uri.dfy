/** `parse_gcs_uri` (app.py): a Cloud Storage URI `gs://bucket/blob` taken
    apart into its bucket and blob names. */
module GcsUri {
  import opened PyStr

  /** The scheme every Cloud Storage URI starts with. */
  const Scheme := "gs://"

  datatype Option<T> = None | Some(value: T)

  /** Where an object lives: a bucket and a blob name inside it (possibly empty). */
  datatype BlobLocation = BlobLocation(bucket: string, blob: string)

  /** `f"gs://{bucket}/{blob}"`: the URI the handler writes for an object. */
  function GcsUriOf(bucket: string, blob: string): (r: string)
    ensures Scheme <= r
  {
    Scheme + bucket + "/" + blob
  }

  /** `parse_gcs_uri(uri)`, with `None` for the ValueError it raises.
      Every occurrence of the scheme is deleted first (not only the leading
      one), then the rest is split at its first '/'. */
  function ParseGcsUri(uri: string): (r: Option<BlobLocation>)
    ensures r.None? <==> !(Scheme <= uri)
    ensures r.Some? ==> '/' !in r.value.bucket
  {
    if !(Scheme <= uri) then None
    else
      var parts := SplitOnce(Replace(uri, Scheme, ""), '/');
      var bucket := parts[0];
      var blob := if |parts| > 1 then parts[1] else "";
      Some(BlobLocation(bucket, blob))
  }

  /** What is left once every scheme is deleted is the bucket, then '/'
      and the blob, or the bucket alone with an empty blob. */
  lemma ParseGcsUriParts(uri: string)
    requires Scheme <= uri
    ensures var loc := ParseGcsUri(uri).value;
      var rest := Replace(uri, Scheme, "");
      rest == loc.bucket + "/" + loc.blob || (rest == loc.bucket && loc.blob == "")
  {
  }

  /** Splitting at the first '/' gives back a '/'-free head and whatever follows. */
  lemma SplitAtFirstSlash(head: string, tail: string)
    requires '/' !in head
    ensures SplitOnce(head + "/" + tail, '/') == [head, tail]
  {
    var s := head + "/" + tail;
    assert s[..|head|] == head;
    assert s[|head|] == '/';
    assert Find(s, '/') == |head|;
    assert s[|head| + 1..] == tail;
  }

  /** Parsing after the leading scheme is parsing what the scheme deletion leaves of the rest. */
  lemma ParseAfterScheme(rest: string)
    ensures ParseGcsUri(Scheme + rest) ==
      var parts := SplitOnce(Replace(rest, Scheme, ""), '/');
      Some(BlobLocation(parts[0], if |parts| > 1 then parts[1] else ""))
  {
    ReplaceLeading(Scheme, rest, "");
    assert "" + Replace(rest, Scheme, "") == Replace(rest, Scheme, "");
  }

  /** Round trip: a URI the handler writes parses back to its bucket and blob,
      provided the scheme does not reappear after the leading one. The blob
      name may itself hold '/'. */
  lemma ParseRoundTrip(bucket: string, blob: string)
    requires '/' !in bucket
    requires !Contains(bucket + "/" + blob, Scheme)
    ensures ParseGcsUri(GcsUriOf(bucket, blob)) == Some(BlobLocation(bucket, blob))
  {
    var rest := bucket + "/" + blob;
    assert GcsUriOf(bucket, blob) == Scheme + rest;
    ParseAfterScheme(rest);
    ReplaceAbsent(rest, Scheme, "");
    SplitAtFirstSlash(bucket, blob);
  }

  /** The scheme cannot straddle the '/' after a bucket name that holds
      neither ':' nor '/' (Cloud Storage bucket names never do). */
  lemma SchemeNotAcrossBucket(bucket: string, blob: string)
    requires '/' !in bucket && ':' !in bucket
    requires !Contains(blob, Scheme)
    ensures !Contains(bucket + "/" + blob, Scheme)
  {
    var s := bucket + "/" + blob;
    var n := |bucket|;
    forall i | 0 <= i <= |s| - |Scheme|
      ensures !OccursAt(s, Scheme, i)
    {
      var w := s[i..i + 5];
      if i + 2 < n {
        assert w[2] == bucket[i + 2] != ':' == Scheme[2];
      } else if i + 2 == n {
        assert w[2] == '/' != Scheme[2];
      } else if i + 1 == n {
        assert w[1] == '/' != Scheme[1];
      } else if i == n {
        assert w[0] == '/' != Scheme[0];
      } else {
        var j := i - n - 1;
        assert 0 <= j <= |blob| - |Scheme|;
        assert w == blob[j..j + 5];
        assert !OccursAt(blob, Scheme, j);
      }
    }
  }

  /** Round trip for bucket names as Cloud Storage allows them: only the blob
      name has to be free of the scheme. */
  lemma ParseRoundTripBucketName(bucket: string, blob: string)
    requires '/' !in bucket && ':' !in bucket
    requires !Contains(blob, Scheme)
    ensures ParseGcsUri(GcsUriOf(bucket, blob)) == Some(BlobLocation(bucket, blob))
  {
    SchemeNotAcrossBucket(bucket, blob);
    ParseRoundTrip(bucket, blob);
  }

  /** A URI with nothing after the bucket yields an empty blob name. */
  lemma ParseBucketOnly(bucket: string)
    requires '/' !in bucket && !Contains(bucket, Scheme)
    ensures ParseGcsUri(Scheme + bucket) == Some(BlobLocation(bucket, ""))
  {
    ParseAfterScheme(bucket);
    ReplaceAbsent(bucket, Scheme, "");
  }

  /** No scheme starts inside `head` when `head` holds none and a scheme follows it:
      a scheme cannot straddle the join, since only its first character is 'g'. */
  lemma NoSchemeBeforeInner(head: string, after: string)
    requires !Contains(head, Scheme)
    ensures forall i :: 0 <= i < |head| ==> !OccursAt(head + (Scheme + after), Scheme, i)
  {
    var s := head + (Scheme + after);
    forall i | 0 <= i < |head|
      ensures !OccursAt(s, Scheme, i)
    {
      if i + |Scheme| <= |head| {
        assert s[i..i + |Scheme|] == head[i..i + |Scheme|];
        assert !OccursAt(head, Scheme, i);
      } else {
        var m := |head| - i;
        assert 1 <= m < |Scheme|;
        assert s[i..i + |Scheme|][m] == s[|head|] == 'g';
        assert Scheme[m] != 'g';
      }
    }
  }

  /** The deletion is not a prefix strip: a scheme later in the blob name is
      deleted too, so the name comes back without it. */
  lemma ParseDeletesInnerScheme(bucket: string, before: string, after: string)
    requires '/' !in bucket && ':' !in bucket
    requires !Contains(before, Scheme) && !Contains(after, Scheme)
    ensures ParseGcsUri(Scheme + bucket + "/" + before + Scheme + after) == Some(BlobLocation(bucket, before + after))
  {
    var head := bucket + "/" + before;
    var tail := Scheme + after;
    var uri := Scheme + bucket + "/" + before + Scheme + after;
    assert uri == Scheme + (head + tail);
    SchemeNotAcrossBucket(bucket, before);
    NoSchemeBeforeInner(head, after);
    ReplaceKeepsPrefix(head, tail, Scheme, "");
    ReplaceLeading(Scheme, after, "");
    ReplaceAbsent(after, Scheme, "");
    var deleted := Replace(head + tail, Scheme, "");
    assert deleted == head + after;
    assert deleted == bucket + "/" + (before + after);
    ParseAfterScheme(head + tail);
    SplitAtFirstSlash(bucket, before + after);
  }

  /** The example of the quirk: "gs://b/x/gs://y" names blob "x/y" of bucket "b". */
  lemma ParseExampleInnerScheme(uri: string)
    requires uri == "gs://b/x/gs://y"
    ensures ParseGcsUri(uri) == Some(BlobLocation("b", "x/y"))
  {
    ExampleUriPieces(uri);
    ParseDeletesInnerScheme("b", "x/", "y");
  }

  /** The example URI cut at its two schemes. */
  lemma ExampleUriPieces(uri: string)
    requires uri == "gs://b/x/gs://y"
    ensures uri == Scheme + "b" + "/" + "x/" + Scheme + "y"
    ensures "x/" + "y" == "x/y" && !Contains("x/", Scheme) && !Contains("y", Scheme)
  {
  }

  /** Why the round trip needs more than a scheme-free bucket and blob: the
      bucket "gs:" with blob "/" + name makes "gs://gs://" + name, which
      parses as the bucket `name`. */
  lemma ParseNestedScheme(name: string)
    requires '/' !in name && !Contains(name, Scheme)
    ensures ParseGcsUri(GcsUriOf("gs:", "/" + name)) == Some(BlobLocation(name, ""))
  {
    var rest := Scheme + name;
    assert GcsUriOf("gs:", "/" + name) == Scheme + rest;
    ReplaceLeading(Scheme, name, "");
    ReplaceAbsent(name, Scheme, "");
    assert Replace(rest, Scheme, "") == name;
    ParseAfterScheme(rest);
  }
}
