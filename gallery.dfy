/**
 * `GET /api/images`: read the upload directory, drop the placeholder that keeps
 * it under version control, stat every other entry, and answer with the
 * records sorted in place, most recently modified first.
 */
module Gallery {
  import opened Wrappers
  import opened Api
  import Naming
  import UploadRoute

  /** The directory entry the listing never reports. */
  const Placeholder: string := ".gitkeep"

  const ReadDirError: string := "Failed to read uploads directory"

  /** What `fs.promises.stat` reports about an entry: its size and modification time in milliseconds. */
  datatype Stat = Stat(size: nat, mtime: int)

  /** `files.filter(file => file !== '.gitkeep')`: every entry but the placeholder, in directory order. */
  function Visible(names: seq<string>): (v: seq<string>)
    ensures multiset(v) == multiset(names)[Placeholder := 0]
    ensures forall n :: n in v <==> n in names && n != Placeholder
    ensures |v| == |names| - multiset(names)[Placeholder]
  {
    if names == [] then []
    else
      assert names == [names[0]] + names[1..];
      (if names[0] == Placeholder then [] else [names[0]]) + Visible(names[1..])
  }

  /** Every entry left after filtering has a stat result; otherwise `Promise.all` rejects. */
  predicate AllStatted(names: seq<string>, stats: map<string, Stat>)
  {
    forall n :: n in names ==> n in stats
  }

  function RecordOf(name: string, st: Stat): ImageRecord
  {
    ImageRecord(name, UploadsPath(name), st.size, st.mtime)
  }

  /** The `.map(...)` step: one record per entry, in directory order. */
  function Records(names: seq<string>, stats: map<string, Stat>): (rs: seq<ImageRecord>)
    requires AllStatted(names, stats)
    ensures |rs| == |names|
    ensures forall i :: 0 <= i < |names| ==> rs[i].filename == names[i] && Describes(rs[i], stats)
  {
    seq(|names|, i requires 0 <= i < |names| => RecordOf(names[i], stats[names[i]]))
  }

  /** The record of entry `name` is the one built from its own stat result. */
  predicate Describes(rec: ImageRecord, stats: map<string, Stat>)
  {
    && rec.filename in stats
    && rec.path == "/uploads/" + rec.filename
    && rec.size == stats[rec.filename].size
    && rec.uploadedAt == stats[rec.filename].mtime
  }

  /** Most recent first: `uploadedAt` never increases along the listing. */
  predicate NewestFirst(s: seq<ImageRecord>)
  {
    forall i, j :: 0 <= i < j < |s| ==> s[i].uploadedAt >= s[j].uploadedAt
  }

  /** The records built for a list of entries describe exactly those entries. */
  lemma RecordsMatchEntries(entries: seq<string>, stats: map<string, Stat>)
    requires AllStatted(entries, stats)
    ensures forall rec :: rec in Records(entries, stats) ==> Describes(rec, stats) && rec.filename in entries
    ensures forall n :: n in entries ==> RecordOf(n, stats[n]) in Records(entries, stats)
  {
    var rs := Records(entries, stats);
    forall rec | rec in rs
      ensures Describes(rec, stats) && rec.filename in entries
    {
      var i :| 0 <= i < |rs| && rs[i] == rec;
    }
    forall n | n in entries
      ensures RecordOf(n, stats[n]) in rs
    {
      var i :| 0 <= i < |entries| && entries[i] == n;
      assert rs[i] == RecordOf(n, stats[n]);
    }
  }

  /** Exchanges two neighbouring records. */
  method SwapAdjacent(a: array<ImageRecord>, j: int)
    requires 0 < j < a.Length
    modifies a
    ensures a[j - 1] == old(a[j]) && a[j] == old(a[j - 1])
    ensures forall k :: 0 <= k < a.Length && k != j - 1 && k != j ==> a[k] == old(a[k])
    ensures multiset(a[..]) == multiset(old(a[..]))
  {
    a[j - 1], a[j] := a[j], a[j - 1];
  }

  /**
   * `imageFiles.sort((a, b) => b.uploadedAt - a.uploadedAt)`: an insertion
   * sort by neighbour exchanges; the prefix `a[..i]` is sorted after each round.
   */
  method SortNewestFirst(a: array<ImageRecord>)
    modifies a
    ensures NewestFirst(a[..])
    ensures multiset(a[..]) == multiset(old(a[..]))
  {
    var i := 0;
    while i < a.Length
      invariant 0 <= i <= a.Length
      invariant forall k, l :: 0 <= k < l < i ==> a[k].uploadedAt >= a[l].uploadedAt
      invariant multiset(a[..]) == multiset(old(a[..]))
    {
      var j := i;
      while 0 < j && a[j - 1].uploadedAt < a[j].uploadedAt
        invariant 0 <= j <= i
        invariant forall k, l :: 0 <= k < l <= i && k != j && l != j ==> a[k].uploadedAt >= a[l].uploadedAt
        invariant forall l :: j < l <= i ==> a[j].uploadedAt > a[l].uploadedAt
        invariant multiset(a[..]) == multiset(old(a[..]))
      {
        SwapAdjacent(a, j);
        j := j - 1;
      }
      i := i + 1;
    }
  }

  /**
   * The handler: a directory that cannot be read, or an entry whose stat
   * fails, gives a 500 with the fixed message and no partial listing;
   * otherwise 200 with the records of all non-placeholder entries, newest first.
   */
  method ListImages(listing: Option<seq<string>>, stats: map<string, Stat>) returns (r: Response)
    ensures r.status == 200 <==> listing.Some? && AllStatted(Visible(listing.value), stats)
    ensures r.status != 200 ==> r == Response(500, ErrorBody(ReadDirError))
    ensures r.status == 200 ==>
      && r.body.ImagesBody?
      && NewestFirst(r.body.images)
      && multiset(r.body.images) == multiset(Records(Visible(listing.value), stats))
  {
    if listing.None? {
      return Response(500, ErrorBody(ReadDirError));
    }
    var entries := Visible(listing.value);
    if !AllStatted(entries, stats) {
      return Response(500, ErrorBody(ReadDirError));
    }
    var records := Records(entries, stats);
    var a := new ImageRecord[|records|](i requires 0 <= i < |records| => records[i]);
    assert a[..] == records;
    SortNewestFirst(a);
    r := Response(200, ImagesBody(a[..]));
  }

  /** Every record of a successful listing describes a real, non-placeholder entry with its own stat result. */
  lemma ListedRecordsAreEntries(names: seq<string>, stats: map<string, Stat>, images: seq<ImageRecord>)
    requires AllStatted(Visible(names), stats)
    requires multiset(images) == multiset(Records(Visible(names), stats))
    ensures forall rec :: rec in images ==> Describes(rec, stats) && rec.filename != Placeholder && rec.filename in names
  {
    var v := Visible(names);
    var rs := Records(v, stats);
    RecordsMatchEntries(v, stats);
    forall rec | rec in images
      ensures rec in rs
    {
      assert rec in multiset(images);
    }
  }

  /** A successful listing has one record per entry left after dropping the placeholder. */
  lemma ListingSize(names: seq<string>, stats: map<string, Stat>, images: seq<ImageRecord>)
    requires AllStatted(Visible(names), stats)
    requires multiset(images) == multiset(Records(Visible(names), stats))
    ensures |images| == |Visible(names)|
  {
    var rs := Records(Visible(names), stats);
    assert |rs| == |Visible(names)|;
    SameSize(images, rs);
  }

  lemma SameSize(s: seq<ImageRecord>, t: seq<ImageRecord>)
    requires multiset(s) == multiset(t)
    ensures |s| == |t|
  {
    assert |s| == |multiset(s)|;
  }

  /** Every directory entry other than the placeholder appears in a successful listing under `/uploads/`. */
  lemma EveryEntryListed(names: seq<string>, stats: map<string, Stat>, images: seq<ImageRecord>)
    requires AllStatted(Visible(names), stats)
    requires multiset(images) == multiset(Records(Visible(names), stats))
    ensures forall n :: n in names && n != Placeholder ==> RecordOf(n, stats[n]) in images
  {
    var v := Visible(names);
    var rs := Records(v, stats);
    RecordsMatchEntries(v, stats);
    forall n | n in names && n != Placeholder
      ensures RecordOf(n, stats[n]) in images
    {
      assert n in v;
      assert RecordOf(n, stats[n]) in multiset(rs);
    }
  }

  /** No two records carry the same modification time. */
  predicate DistinctTimes(s: seq<ImageRecord>)
  {
    forall i, j :: 0 <= i < j < |s| ==> s[i].uploadedAt != s[j].uploadedAt
  }

  /**
   * When modification times are distinct, the newest-first order is the only
   * one: any two sorted arrangements of the same records are equal.
   */
  lemma {:induction false} NewestFirstIsUnique(s: seq<ImageRecord>, t: seq<ImageRecord>)
    requires NewestFirst(s) && NewestFirst(t)
    requires multiset(s) == multiset(t)
    requires DistinctTimes(s)
    ensures s == t
  {
    if s == [] {
      assert |t| == |multiset(t)| == 0;
    } else {
      assert |t| == |multiset(t)| == |multiset(s)| == |s|;
      SameNewest(s, t);
      DropNewest(s);
      DropNewest(t);
      NewestFirstIsUnique(s[1..], t[1..]);
    }
  }

  /** Removing the first record keeps a listing sorted and its times distinct, and removes one copy of it. */
  lemma DropNewest(s: seq<ImageRecord>)
    requires NewestFirst(s) && |s| > 0
    ensures NewestFirst(s[1..])
    ensures DistinctTimes(s) ==> DistinctTimes(s[1..])
    ensures multiset(s[1..]) == multiset(s) - multiset{s[0]}
  {
    assert s == [s[0]] + s[1..];
  }

  /** Sorted arrangements of the same records with distinct times start with the same record. */
  lemma SameNewest(s: seq<ImageRecord>, t: seq<ImageRecord>)
    requires NewestFirst(s) && NewestFirst(t)
    requires multiset(s) == multiset(t)
    requires DistinctTimes(s)
    requires |s| > 0
    ensures |t| > 0 && t[0] == s[0]
  {
    assert s[0] in multiset(t);
    var k :| 0 <= k < |t| && t[k] == s[0];
    assert t[0] in multiset(s);
    var m :| 0 <= m < |s| && s[m] == t[0];
    assert s[0].uploadedAt >= s[m].uploadedAt;
    assert t[0].uploadedAt >= t[k].uploadedAt;
  }

  /** Three uploads made at t1 < t2 < t3 are listed as [t3, t2, t1]. */
  lemma ThreeUploadsNewestFirst(x: ImageRecord, y: ImageRecord, z: ImageRecord, images: seq<ImageRecord>)
    requires x.uploadedAt < y.uploadedAt < z.uploadedAt
    requires NewestFirst(images) && multiset(images) == multiset([x, y, z])
    ensures images == [z, y, x]
  {
    assert multiset([z, y, x]) == multiset([x, y, z]);
    NewestFirstIsUnique([z, y, x], images);
  }

  /**
   * An upload the server accepted shows up in the next listing: its stored
   * name is never the placeholder, so once the directory lists it and its
   * stat reports the uploaded size, the listing holds a record with the same
   * `path` and `size` as the upload receipt.
   */
  lemma UploadedFileIsListed(part: UploadRoute.Part, millis: nat, rand: nat, names: seq<string>,
                             stats: map<string, Stat>, images: seq<ImageRecord>)
    requires UploadRoute.Upload(false, Some(part), millis, rand, None).response.status == 200
    requires Naming.StoredName(millis, rand, part.originalName) in names
    requires Naming.StoredName(millis, rand, part.originalName) in stats
    requires stats[Naming.StoredName(millis, rand, part.originalName)].size == part.size
    requires AllStatted(Visible(names), stats)
    requires multiset(images) == multiset(Records(Visible(names), stats))
    ensures var receipt := UploadRoute.Upload(false, Some(part), millis, rand, None).response.body;
      exists rec :: rec in images && rec.path == receipt.path && rec.size == receipt.size
  {
    var name := Naming.StoredName(millis, rand, part.originalName);
    assert name[0] != Placeholder[0];
    EveryEntryListed(names, stats, images);
    assert RecordOf(name, stats[name]) in images;
  }
}
