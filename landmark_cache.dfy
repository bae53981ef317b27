/** The landmark cache of `generate_landmark_file` (data/I2G_dataset.py):
    the cache file's name, the walk over the image directory that asks the
    detector for every image file, and the record of landmark arrays keyed by
    bare file name. The file system is a value: the set of directories and
    the cache files already written. */
module LandmarkCache {
  import opened Common

  /** One landmark in image-pixel coordinates. */
  datatype Point = Point(x: real, y: real)

  type Landmarks = seq<Point>

  /** The detector's answer for one image: the array's leading dimension
      (`face_hull.shape[0]`) and all its values flattened in row-major order. */
  datatype Detection = Detection(pointNum: nat, data: seq<real>)

  const CacheSuffix: string := "_landmark.pkl"

  /** `s` with every trailing `/` removed (`str.rstrip('/')`). */
  function RStripSlashes(s: string): (t: string)
    ensures |t| <= |s| && t == s[..|t|]
    ensures forall k :: |t| <= k < |s| ==> s[k] == '/'
    ensures t == [] || t[|t| - 1] != '/'
  {
    if s != [] && s[|s| - 1] == '/' then RStripSlashes(s[..|s| - 1]) else s
  }

  /** The cache file that belongs to directory `dir`. */
  function CachePath(dir: string): (path: string) {
    RStripSlashes(dir) + CacheSuffix
  }

  /** `k` slash characters. */
  function Slashes(k: nat): (s: string)
    ensures |s| == k && forall i :: 0 <= i < k ==> s[i] == '/'
  {
    if k == 0 then [] else Slashes(k - 1) + ['/']
  }

  /** The cache name is the directory with its trailing slashes removed,
      followed by `_landmark.pkl`: it always ends in the suffix, and it is the
      directory itself when that has no trailing slash. */
  lemma CachePathShape(dir: string)
    ensures |CachePath(dir)| >= |CacheSuffix|
    ensures CachePath(dir)[|CachePath(dir)| - |CacheSuffix|..] == CacheSuffix
    ensures exists k: nat :: dir == CachePath(dir)[..|CachePath(dir)| - |CacheSuffix|] + Slashes(k)
    ensures dir == [] || dir[|dir| - 1] != '/' ==> CachePath(dir) == dir + CacheSuffix
  {
    var t := RStripSlashes(dir);
    var k := |dir| - |t|;
    assert CachePath(dir)[..|CachePath(dir)| - |CacheSuffix|] == t;
    assert dir == t + Slashes(k);
  }

  /** Trailing slashes on the directory do not change the cache name. */
  lemma {:induction false} CachePathIgnoresTrailingSlashes(dir: string, k: nat)
    ensures CachePath(dir + Slashes(k)) == CachePath(dir)
  {
    if k > 0 {
      var s := dir + Slashes(k);
      assert s[|s| - 1] == '/';
      assert s[..|s| - 1] == dir + Slashes(k - 1);
      assert RStripSlashes(s) == RStripSlashes(dir + Slashes(k - 1));
      CachePathIgnoresTrailingSlashes(dir, k - 1);
    } else {
      assert dir + Slashes(k) == dir;
    }
  }

  /** `np.reshape(face_hull, [point_num, 2])`: the values taken two at a time.
      numpy refuses when there are not exactly two values per point. */
  function Reshape(d: Detection, path: string): (r: Result<Landmarks>)
    ensures r.Success? <==> |d.data| == 2 * d.pointNum
    ensures r.Failure? ==> r.error == ReshapeMismatch(path)
    ensures r.Success? ==> |r.value| == d.pointNum
  {
    if |d.data| != 2 * d.pointNum then Failure(ReshapeMismatch(path))
    else Success(seq(d.pointNum, i requires 0 <= i < d.pointNum => Point(d.data[2 * i], d.data[2 * i + 1])))
  }

  /** The row-major values of a point array (its `ravel()`). */
  function Flatten(pts: Landmarks): (data: seq<real>)
    ensures |data| == 2 * |pts|
  {
    if pts == [] then [] else [pts[0].x, pts[0].y] + Flatten(pts[1..])
  }

  lemma {:induction false} FlattenAt(pts: Landmarks, i: nat)
    requires i < |pts|
    ensures Flatten(pts)[2 * i] == pts[i].x && Flatten(pts)[2 * i + 1] == pts[i].y
  {
    if i > 0 {
      FlattenAt(pts[1..], i - 1);
    }
  }

  /** Reshaping an array's own values gives the array back, and flattening
      a reshaped detection gives back the detector's values. */
  lemma {:induction false} ReshapeRoundTrip(pts: Landmarks, d: Detection, path: string)
    ensures Reshape(Detection(|pts|, Flatten(pts)), path) == Success(pts)
    ensures Reshape(d, path).Success? ==> Flatten(Reshape(d, path).value) == d.data
  {
    var back := Reshape(Detection(|pts|, Flatten(pts)), path).value;
    assert |back| == |pts|;
    forall i | 0 <= i < |pts| ensures back[i] == pts[i] {
      FlattenAt(pts, i);
    }
    assert back == pts;
    if Reshape(d, path).Success? {
      var p := Reshape(d, path).value;
      var f := Flatten(p);
      forall j | 0 <= j < |f| ensures f[j] == d.data[j] {
        FlattenAt(p, j / 2);
      }
      assert f == d.data;
    }
  }

  /** A Python dict from file name to landmarks: its keys in insertion order
      and its entries. */
  datatype Record = Record(keys: seq<string>, points: map<string, Landmarks>)

  ghost predicate ValidRecord(rec: Record) {
    && (forall i, j :: 0 <= i < j < |rec.keys| ==> rec.keys[i] != rec.keys[j])
    && (forall k :: k in rec.points <==> k in rec.keys)
  }

  const EmptyRecord: Record := Record([], map[])

  /** `images_list[key] = value`: a new key goes to the end of the key order,
      an existing key keeps its place and gets the new value. */
  function Store(rec: Record, key: string, value: Landmarks): (r: Record)
    ensures r.points == rec.points[key := value]
    ensures r.keys == if key in rec.points then rec.keys else rec.keys + [key]
  {
    if key in rec.points then Record(rec.keys, rec.points[key := value])
    else Record(rec.keys + [key], rec.points[key := value])
  }

  /** Assigning a key keeps the dict well formed: keys without repetition,
      and exactly the keys that have entries. */
  lemma StoreValid(rec: Record, key: string, value: Landmarks)
    requires ValidRecord(rec)
    ensures ValidRecord(Store(rec, key, value))
  {
    var r := Store(rec, key, value);
    if key !in rec.points {
      forall i, j | 0 <= i < j < |r.keys| ensures r.keys[i] != r.keys[j] {
        if j == |rec.keys| {
          assert r.keys[i] == rec.keys[i];
        }
      }
    }
  }

  /** One `(root, dirnames, filenames)` triple of `os.walk`; only the root and
      the file names are read. */
  datatype WalkEntry = WalkEntry(root: string, fnames: seq<string>)

  /** A file the walk visits. */
  datatype FileEntry = FileEntry(root: string, name: string)

  /** `os.path.join(root, name)` for a plain file name. */
  function Join(root: string, name: string): string {
    if root == [] || root[|root| - 1] == '/' then root + name else root + "/" + name
  }

  function FilePath(f: FileEntry): string {
    Join(f.root, f.name)
  }

  function EntryFiles(e: WalkEntry): (fs: seq<FileEntry>)
    ensures |fs| == |e.fnames|
    ensures forall j :: 0 <= j < |fs| ==> fs[j] == FileEntry(e.root, e.fnames[j])
  {
    seq(|e.fnames|, j requires 0 <= j < |e.fnames| => FileEntry(e.root, e.fnames[j]))
  }

  /** Every file of the walk, in the order the two nested loops visit them. */
  function Files(walk: seq<WalkEntry>): seq<FileEntry> {
    if walk == [] then [] else Files(walk[..|walk| - 1]) + EntryFiles(walk[|walk| - 1])
  }

  /** The detector found a face in file `f`, an image file. */
  predicate Detected(f: FileEntry, isImage: string -> bool, detect: string -> Option<Detection>) {
    isImage(f.name) && detect(FilePath(f)).Some?
  }

  /** One iteration of the inner loop: non-image files and images without a
      face leave the record alone; otherwise the reshaped landmarks are stored
      under the bare file name. */
  function AddFile(rec: Record, f: FileEntry, isImage: string -> bool, detect: string -> Option<Detection>): Result<Record>
  {
    if !Detected(f, isImage, detect) then Success(rec)
    else
      var pts :- Reshape(detect(FilePath(f)).value, FilePath(f));
      Success(Store(rec, f.name, pts))
  }

  /** The record the loops build over `files`, or the first reshape error. */
  function RecordFrom(files: seq<FileEntry>, isImage: string -> bool, detect: string -> Option<Detection>): Result<Record>
  {
    if files == [] then Success(EmptyRecord)
    else
      var prev :- RecordFrom(files[..|files| - 1], isImage, detect);
      AddFile(prev, files[|files| - 1], isImage, detect)
  }

  /** The landmarks stored for file `f` (whose detector answer reshapes). */
  ghost predicate StoredFrom(f: FileEntry, pts: Landmarks, isImage: string -> bool, detect: string -> Option<Detection>) {
    Detected(f, isImage, detect) && Reshape(detect(FilePath(f)).value, FilePath(f)) == Success(pts)
  }

  /** Some image file named `name` has a detected face. */
  ghost predicate HasFace(files: seq<FileEntry>, name: string, isImage: string -> bool, detect: string -> Option<Detection>) {
    exists i :: 0 <= i < |files| && files[i].name == name && Detected(files[i], isImage, detect)
  }

  /** `files[i]` is the last file named `name` with a detected face. */
  ghost predicate LastFaceAt(files: seq<FileEntry>, i: int, name: string, isImage: string -> bool, detect: string -> Option<Detection>) {
    && 0 <= i < |files|
    && files[i].name == name
    && Detected(files[i], isImage, detect)
    && forall j :: i < j < |files| && files[j].name == name ==> !Detected(files[j], isImage, detect)
  }

  /** Some detected image file does not reshape into points. */
  ghost predicate HasBadDetection(files: seq<FileEntry>, isImage: string -> bool, detect: string -> Option<Detection>) {
    exists i :: 0 <= i < |files| && Detected(files[i], isImage, detect) &&
      Reshape(detect(FilePath(files[i])).value, FilePath(files[i])).Failure?
  }

  /** The build fails exactly when some file with a face has a detector
      answer that does not reshape into points. */
  lemma {:induction false} RecordFromFails(files: seq<FileEntry>, isImage: string -> bool, detect: string -> Option<Detection>)
    ensures RecordFrom(files, isImage, detect).Failure? <==> HasBadDetection(files, isImage, detect)
  {
    if files != [] {
      var init := files[..|files| - 1];
      RecordFromFails(init, isImage, detect);
      assert forall i :: 0 <= i < |init| ==> files[i] == init[i];
      if HasBadDetection(init, isImage, detect) {
        var i :| 0 <= i < |init| && Detected(init[i], isImage, detect) &&
          Reshape(detect(FilePath(init[i])).value, FilePath(init[i])).Failure?;
        assert files[i] == init[i];
      }
      if HasBadDetection(files, isImage, detect) && !HasBadDetection(init, isImage, detect) {
        var i :| 0 <= i < |files| && Detected(files[i], isImage, detect) &&
          Reshape(detect(FilePath(files[i])).value, FilePath(files[i])).Failure?;
        assert i == |files| - 1;
      }
    }
  }

  /** A successful build has an entry exactly for the names of image files in
      which the detector found a face; files without a face leave no entry. */
  lemma {:induction false} RecordFromKeys(files: seq<FileEntry>, isImage: string -> bool, detect: string -> Option<Detection>, name: string)
    requires RecordFrom(files, isImage, detect).Success?
    ensures name in RecordFrom(files, isImage, detect).value.points <==> HasFace(files, name, isImage, detect)
  {
    if files != [] {
      var init := files[..|files| - 1];
      RecordFromKeys(init, isImage, detect, name);
      assert forall i :: 0 <= i < |init| ==> files[i] == init[i];
      if HasFace(init, name, isImage, detect) {
        var i :| 0 <= i < |init| && init[i].name == name && Detected(init[i], isImage, detect);
        assert files[i] == init[i];
      }
      if HasFace(files, name, isImage, detect) && !HasFace(init, name, isImage, detect) {
        var i :| 0 <= i < |files| && files[i].name == name && Detected(files[i], isImage, detect);
        assert i == |files| - 1;
      }
    }
  }

  /** Each entry of a successful build holds the reshaped landmarks of the
      LAST file of that name with a detected face: a later file of the same
      name in another directory overwrites an earlier one. */
  lemma {:induction false} RecordFromLastWins(files: seq<FileEntry>, isImage: string -> bool, detect: string -> Option<Detection>, name: string)
    requires RecordFrom(files, isImage, detect).Success?
    requires name in RecordFrom(files, isImage, detect).value.points
    ensures exists i ::
      && LastFaceAt(files, i, name, isImage, detect)
      && StoredFrom(files[i], RecordFrom(files, isImage, detect).value.points[name], isImage, detect)
  {
    var init := files[..|files| - 1];
    var last := files[|files| - 1];
    var prev := RecordFrom(init, isImage, detect).value;
    var rec := RecordFrom(files, isImage, detect).value;
    if Detected(last, isImage, detect) && last.name == name {
      assert LastFaceAt(files, |files| - 1, name, isImage, detect);
      assert StoredFrom(files[|files| - 1], rec.points[name], isImage, detect);
    } else {
      AddFileKeeps(prev, last, isImage, detect, name);
      RecordFromLastWins(init, isImage, detect, name);
      var i :| LastFaceAt(init, i, name, isImage, detect)
        && StoredFrom(init[i], prev.points[name], isImage, detect);
      LastFaceAtSnoc(init, last, i, name, isImage, detect);
      assert files == init + [last];
    }
  }

  /** A file that is not a detected face named `name` leaves the entry for `name` as it was. */
  lemma AddFileKeeps(rec: Record, f: FileEntry, isImage: string -> bool, detect: string -> Option<Detection>, name: string)
    requires !(Detected(f, isImage, detect) && f.name == name)
    requires AddFile(rec, f, isImage, detect).Success?
    ensures name in AddFile(rec, f, isImage, detect).value.points <==> name in rec.points
    ensures name in rec.points ==> AddFile(rec, f, isImage, detect).value.points[name] == rec.points[name]
  {
  }

  /** The last face named `name` stays the last one when a file that is not
      such a face is appended. */
  lemma LastFaceAtSnoc(files: seq<FileEntry>, f: FileEntry, i: int, name: string,
                       isImage: string -> bool, detect: string -> Option<Detection>)
    requires LastFaceAt(files, i, name, isImage, detect)
    requires !(Detected(f, isImage, detect) && f.name == name)
    ensures LastFaceAt(files + [f], i, name, isImage, detect)
    ensures (files + [f])[i] == files[i]
  {
  }

  /** The directory tree and the cache files already on disk. */
  datatype Disk = Disk(dirs: set<string>, caches: map<string, Record>)

  /** The build over one more file is one more step of the inner loop. */
  lemma RecordFromSnoc(files: seq<FileEntry>, f: FileEntry, isImage: string -> bool, detect: string -> Option<Detection>)
    ensures var prev := RecordFrom(files, isImage, detect);
      RecordFrom(files + [f], isImage, detect) ==
        if prev.Failure? then prev else AddFile(prev.value, f, isImage, detect)
  {
    assert (files + [f])[..|files|] == files;
  }

  /** The files of the first `e` walk entries come first among all files. */
  lemma {:induction false} FilesPrefix(walk: seq<WalkEntry>, e: nat)
    requires e <= |walk|
    ensures Files(walk[..e]) <= Files(walk)
    decreases |walk|
  {
    if e < |walk| {
      assert walk[..|walk| - 1][..e] == walk[..e];
      FilesPrefix(walk[..|walk| - 1], e);
    } else {
      assert walk[..e] == walk;
    }
  }

  /** The four outcomes of one inner-loop iteration. */
  lemma AddFileCases(rec: Record, f: FileEntry, isImage: string -> bool, detect: string -> Option<Detection>)
    ensures !isImage(f.name) ==> AddFile(rec, f, isImage, detect) == Success(rec)
    ensures isImage(f.name) && detect(FilePath(f)).None? ==> AddFile(rec, f, isImage, detect) == Success(rec)
    ensures isImage(f.name) && detect(FilePath(f)).Some? ==>
      var pts := Reshape(detect(FilePath(f)).value, FilePath(f));
      AddFile(rec, f, isImage, detect) == if pts.Failure? then Failure(pts.error) else Success(Store(rec, f.name, pts.value))
  {
  }

  lemma FilesSnoc(walk: seq<WalkEntry>, e: nat)
    requires e < |walk|
    ensures Files(walk[..e + 1]) == Files(walk[..e]) + EntryFiles(walk[e])
  {
    assert walk[..e + 1][..e] == walk[..e];
  }

  /** The two nested loops of `generate_landmark_file` over the walk, filling
      `images_list`. */
  method BuildRecord(walk: seq<WalkEntry>, isImage: string -> bool, detect: string -> Option<Detection>)
    returns (r: Result<Record>)
    ensures r == RecordFrom(Files(walk), isImage, detect)
  {
    var rec := EmptyRecord;
    for e := 0 to |walk|
      invariant RecordFrom(Files(walk[..e]), isImage, detect) == Success(rec)
    {
      FilesSnoc(walk, e);
      var next := ScanEntry(rec, walk[e], isImage, detect, Files(walk[..e]));
      if next.Failure? {
        FilesPrefix(walk, e + 1);
        RecordFromFailurePersists(Files(walk[..e + 1]), Files(walk), isImage, detect);
        return next;
      }
      rec := next.value;
    }
    assert walk[..|walk|] == walk;
    r := Success(rec);
  }

  /** The inner loop of `generate_landmark_file` over the file names of one
      walk entry, continuing the record built over the files `done` before it. */
  method ScanEntry(rec: Record, entry: WalkEntry, isImage: string -> bool, detect: string -> Option<Detection>,
                   ghost done: seq<FileEntry>)
    returns (r: Result<Record>)
    requires RecordFrom(done, isImage, detect) == Success(rec)
    ensures r == RecordFrom(done + EntryFiles(entry), isImage, detect)
  {
    var cur := rec;
    ghost var acc := done;
    for j := 0 to |entry.fnames|
      invariant acc == done + EntryFiles(entry)[..j]
      invariant RecordFrom(acc, isImage, detect) == Success(cur)
    {
      var next := ScanFile(cur, entry.root, entry.fnames[j], isImage, detect, acc);
      assert EntryFiles(entry)[..j + 1] == EntryFiles(entry)[..j] + [FileEntry(entry.root, entry.fnames[j])];
      acc := acc + [FileEntry(entry.root, entry.fnames[j])];
      if next.Failure? {
        assert acc <= done + EntryFiles(entry);
        RecordFromFailurePersists(acc, done + EntryFiles(entry), isImage, detect);
        return next;
      }
      cur := next.value;
    }
    assert EntryFiles(entry)[..|entry.fnames|] == EntryFiles(entry);
    r := Success(cur);
  }

  /** The body of the inner loop for the file `fname` under `root`: an image
      file goes to the detector, and a detected face is reshaped and stored
      under the bare file name. */
  method ScanFile(rec: Record, root: string, fname: string, isImage: string -> bool,
                  detect: string -> Option<Detection>, ghost done: seq<FileEntry>)
    returns (r: Result<Record>)
    requires RecordFrom(done, isImage, detect) == Success(rec)
    ensures r == RecordFrom(done + [FileEntry(root, fname)], isImage, detect)
  {
    RecordFromSnoc(done, FileEntry(root, fname), isImage, detect);
    AddFileCases(rec, FileEntry(root, fname), isImage, detect);
    r := Success(rec);
    if isImage(fname) {
      var path := Join(root, fname);
      var faceHull := detect(path);
      if faceHull.Some? {
        var pts := Reshape(faceHull.value, path);
        if pts.Failure? {
          return Failure(pts.error);
        }
        r := Success(Store(rec, fname, pts.value));
      }
    }
  }

  /** Every record the loops build is a well-formed dict. */
  lemma {:induction false} RecordFromValid(files: seq<FileEntry>, isImage: string -> bool, detect: string -> Option<Detection>)
    requires RecordFrom(files, isImage, detect).Success?
    ensures ValidRecord(RecordFrom(files, isImage, detect).value)
  {
    if files != [] {
      var init := files[..|files| - 1];
      var last := files[|files| - 1];
      RecordFromValid(init, isImage, detect);
      var prev := RecordFrom(init, isImage, detect).value;
      if Detected(last, isImage, detect) {
        StoreValid(prev, last.name, Reshape(detect(FilePath(last)).value, FilePath(last)).value);
      }
    }
  }

  /** Once the build has failed on a prefix of the files, it fails with the
      same error on the whole list. */
  lemma {:induction false} RecordFromFailurePersists(prefix: seq<FileEntry>, files: seq<FileEntry>, isImage: string -> bool, detect: string -> Option<Detection>)
    requires prefix <= files
    requires RecordFrom(prefix, isImage, detect).Failure?
    ensures RecordFrom(files, isImage, detect) == RecordFrom(prefix, isImage, detect)
    decreases |files|
  {
    if |files| > |prefix| {
      assert prefix <= files[..|files| - 1];
      RecordFromFailurePersists(prefix, files[..|files| - 1], isImage, detect);
    } else {
      assert files == prefix;
    }
  }

  /** `generate_landmark_file(dir)`: refuse a path that is not a directory;
      reuse an existing cache file as it is, without looking at the
      directory; otherwise build the record over the walk and write it. The
      walk is `sorted(os.walk(dir))`. */
  method GenerateLandmarkFile(dir: string, disk: Disk, walk: seq<WalkEntry>,
                              isImage: string -> bool, detect: string -> Option<Detection>)
    returns (r: Result<(string, Disk)>)
    ensures dir !in disk.dirs ==> r == Failure(NotADirectory(dir))
    ensures dir in disk.dirs && CachePath(dir) in disk.caches ==> r == Success((CachePath(dir), disk))
    ensures dir in disk.dirs && CachePath(dir) !in disk.caches ==>
      var built := RecordFrom(Files(walk), isImage, detect);
      r == if built.Failure? then Failure(built.error)
           else Success((CachePath(dir), disk.(caches := disk.caches[CachePath(dir) := built.value])))
    ensures r.Success? ==> r.value.0 == CachePath(dir) && r.value.0 in r.value.1.caches
    ensures r.Success? ==> r.value.1.dirs == disk.dirs
  {
    if dir !in disk.dirs {
      return Failure(NotADirectory(dir));
    }
    var cache := CachePath(dir);
    if cache !in disk.caches {
      var built := BuildRecord(walk, isImage, detect);
      if built.Failure? {
        return Failure(built.error);
      }
      return Success((cache, disk.(caches := disk.caches[cache := built.value])));
    }
    return Success((cache, disk));
  }

  /** Building the cache a second time over the same directory changes
      nothing: the second call finds the cache file and returns it as is. */
  method GenerateTwice(dir: string, disk: Disk, walk: seq<WalkEntry>,
                       isImage: string -> bool, detect: string -> Option<Detection>)
    returns (first: Result<(string, Disk)>, second: Result<(string, Disk)>)
    ensures first.Success? ==> second == first
    ensures first.Failure? ==> CachePath(dir) !in disk.caches || dir !in disk.dirs
  {
    first := GenerateLandmarkFile(dir, disk, walk, isImage, detect);
    if first.Failure? {
      second := first;
      return;
    }
    second := GenerateLandmarkFile(dir, first.value.1, walk, isImage, detect);
  }
}
