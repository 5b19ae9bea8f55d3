/** The sensor locator, find_hwmon_file: a first-match search over the
    entries of the hardware-monitor directory. The directory is a snapshot:
    `None` when it cannot be opened, otherwise its entries in the order the
    directory enumeration yields them. */
module Locator {
  import opened Wrappers
  import opened Bytes

  /** The directory find_hwmon_file scans, with the separator the paths it builds put after it. */
  const HWMON_DIR: seq<byte> := /* "/sys/class/hwmon/" */ [47, 115, 121, 115, 47, 99, 108, 97, 115, 115, 47, 104, 119, 109, 111, 110, 47]
  /** The five bytes every device directory name starts with. */
  const HWMON_PREFIX: seq<byte> := /* "hwmon" */ [104, 119, 109, 111, 110]

  /** One directory entry: its name, the contents of its `name` file
      (`None` when that file cannot be opened), and the names of the files
      that exist in it. */
  datatype Entry = Entry(dName: seq<byte>, nameFile: Option<seq<byte>>, files: set<seq<byte>>)

  /** find_hwmon_file exits when the directory cannot be opened, returns
      NULL when nothing matches, and otherwise returns a path. */
  datatype LocateResult = RootUnavailable | NotFound | Found(path: seq<byte>)

  /** strncmp(d_name, "hwmon", 5) == 0 */
  predicate HasHwmonPrefix(dName: seq<byte>)
    ensures HasHwmonPrefix(dName) <==>
      |dName| >= |HWMON_PREFIX| && forall j :: 0 <= j < |HWMON_PREFIX| ==> dName[j] == HWMON_PREFIX[j]
  {
    HWMON_PREFIX <= dName
  }

  predicate IsNotNewline(b: byte)
  {
    b != NEWLINE
  }

  /** A byte strcspn(name_buf, "\n") passes over: neither the newline nor
      the NUL that ends the C string. */
  predicate IsNameByte(b: byte)
  {
    b != NEWLINE && b != NUL
  }

  /** What fgets(name_buf, BUFFER_SIZE, f) stores before the NUL:
      nothing (NULL) at end of file, otherwise the bytes up to and including
      the first newline, but never more than BUFFER_SIZE - 1 of them. */
  function Fgets(content: seq<byte>): (line: Option<seq<byte>>)
    ensures line.None? <==> content == []
    ensures line.Some? ==> 0 < |line.value| < BUFFER_SIZE && line.value <= content
    ensures line.Some? ==> forall j :: 0 <= j < |line.value| - 1 ==> line.value[j] != NEWLINE
    ensures line.Some? ==>
      line.value[|line.value| - 1] == NEWLINE || |line.value| == BUFFER_SIZE - 1 || line.value == content
  {
    if content == [] then None
    else
      var window := content[..Min(BUFFER_SIZE - 1, |content|)];
      var k := Span(window, IsNotNewline);
      Some(if k < |window| then window[..k + 1] else window)
  }

  /** The C string left in name_buf once name_buf[strcspn(name_buf, "\n")] = '\0'. */
  function CutAtNewline(line: seq<byte>): (name: seq<byte>)
    ensures name <= line
    ensures forall j :: 0 <= j < |name| ==> IsNameByte(name[j])
    ensures |name| == |line| || !IsNameByte(line[|name|])
  {
    line[..Span(line, IsNameByte)]
  }

  /** The name strcmp compares with the target. It is the longest prefix of
      the first BUFFER_SIZE - 1 bytes of the `name` file that holds no
      newline and no NUL; an empty file yields no name at all. */
  function ComparedName(content: seq<byte>): (name: Option<seq<byte>>)
    ensures name.None? <==> content == []
    ensures name.Some? ==> |name.value| < BUFFER_SIZE
  {
    match Fgets(content)
    case None => None
    case Some(line) => Some(CutAtNewline(line))
  }

  /** Name matching: the compared name is the first line of the `name`
      file, limited to BUFFER_SIZE - 1 bytes, cut at the first newline
      (or at a NUL, where the C string ends). An empty file yields no name. */
  lemma ComparedNameIsFirstLine(content: seq<byte>)
    ensures ComparedName(content).None? <==> content == []
    ensures ComparedName(content).Some? ==>
      var name := ComparedName(content).value;
      && name <= content && |name| < BUFFER_SIZE
      && (forall j :: 0 <= j < |name| ==> IsNameByte(name[j]))
      && (|name| == BUFFER_SIZE - 1 || |name| == |content| || !IsNameByte(content[|name|]))
  {
    if content != [] {
      var line := Fgets(content).value;
      var k := Span(line, IsNameByte);
      if k == |line| {
        assert IsNameByte(line[|line| - 1]);
      }
    }
  }

  /** A `name` file holding one line shorter than the buffer yields that line. */
  lemma ComparedNameOfLine(name: seq<byte>, rest: seq<byte>)
    requires |name| < BUFFER_SIZE - 1
    requires forall j :: 0 <= j < |name| ==> IsNameByte(name[j])
    ensures ComparedName(name + [NEWLINE] + rest) == Some(name)
  {
    var content := name + [NEWLINE] + rest;
    var window := content[..Min(BUFFER_SIZE - 1, |content|)];
    assert window == name + window[|name|..] && window[|name|] == NEWLINE;
    SpanOfConcat(name, window[|name|..], IsNotNewline);
    var line := window[..|name| + 1];
    assert line == name + [NEWLINE];
    SpanOfConcat(name, [NEWLINE], IsNameByte);
    assert line[..|name|] == name;
  }

  /** "/sys/class/hwmon/" + d_name + "/" + filename, as snprintf builds it. */
  function FullPath(dName: seq<byte>, filename: seq<byte>): (path: seq<byte>)
    ensures |path| == |HWMON_DIR| + |dName| + 1 + |filename|
    ensures path[..|HWMON_DIR|] == HWMON_DIR
    ensures path[|HWMON_DIR|..|HWMON_DIR| + |dName|] == dName
    ensures path[|HWMON_DIR| + |dName|] == SLASH
    ensures path[|HWMON_DIR| + |dName| + 1..] == filename
  {
    HWMON_DIR + dName + [SLASH] + filename
  }

  /** An entry find_hwmon_file returns: its name has the prefix, its `name`
      file opens and its first line equals the target, and the metric file
      exists. */
  predicate Qualifies(e: Entry, target: seq<byte>, filename: seq<byte>)
  {
    && HasHwmonPrefix(e.dName)
    && e.nameFile.Some?
    && ComparedName(e.nameFile.value) == Some(target)
    && filename in e.files
  }

  /** The index of the first entry satisfying `q`, if any. */
  function FirstWhere(entries: seq<Entry>, q: Entry -> bool): (r: Option<nat>)
    ensures r.Some? ==> r.value < |entries| && q(entries[r.value])
    ensures r.Some? ==> forall j :: 0 <= j < r.value ==> !q(entries[j])
    ensures r.None? ==> forall j :: 0 <= j < |entries| ==> !q(entries[j])
  {
    if entries == [] then None
    else if q(entries[0]) then Some(0)
    else match FirstWhere(entries[1..], q)
      case None => None
      case Some(k) => Some(k + 1)
  }

  /** The first index satisfying `q` is the one before which none does. */
  lemma FirstWhereAt(entries: seq<Entry>, q: Entry -> bool, i: nat)
    requires i < |entries| && q(entries[i])
    requires forall j :: 0 <= j < i ==> !q(entries[j])
    ensures FirstWhere(entries, q) == Some(i)
  {
  }

  /** Qualifies, as the condition of a search. */
  function QualifiesFor(target: seq<byte>, filename: seq<byte>): Entry -> bool
  {
    e => Qualifies(e, target, filename)
  }

  /** What find_hwmon_file(target, filename) returns for a snapshot: the
      path of the first qualifying entry in enumeration order, NULL when
      none qualifies. */
  function Locate(root: Option<seq<Entry>>, target: seq<byte>, filename: seq<byte>): (r: LocateResult)
    ensures r.RootUnavailable? <==> root.None?
  {
    match root
    case None => RootUnavailable
    case Some(entries) =>
      match FirstWhere(entries, QualifiesFor(target, filename))
      case None => NotFound
      case Some(i) => Found(FullPath(entries[i].dName, filename))
  }

  /** Not found: the result is NULL exactly when no entry qualifies, and
      the run stops early only when the directory cannot be opened. */
  lemma LocateNotFound(root: Option<seq<Entry>>, target: seq<byte>, filename: seq<byte>)
    ensures Locate(root, target, filename).RootUnavailable? <==> root.None?
    ensures root.Some? ==>
      (Locate(root, target, filename).NotFound? <==>
        forall j :: 0 <= j < |root.value| ==> !Qualifies(root.value[j], target, filename))
  {
  }

  /** Result shape: a returned path is "/sys/class/hwmon/" + d_name + "/" +
      filename of an entry that qualifies and that no earlier qualifying
      entry precedes; and every such entry's path is the one returned. */
  lemma LocateFound(entries: seq<Entry>, target: seq<byte>, filename: seq<byte>, path: seq<byte>)
    ensures Locate(Some(entries), target, filename) == Found(path) <==>
      exists i :: 0 <= i < |entries| && Qualifies(entries[i], target, filename)
        && (forall j :: 0 <= j < i ==> !Qualifies(entries[j], target, filename))
        && path == FullPath(entries[i].dName, filename)
  {
    var q := QualifiesFor(target, filename);
    match FirstWhere(entries, q)
    case None =>
      forall i | 0 <= i < |entries|
        ensures !Qualifies(entries[i], target, filename)
      {
        assert !q(entries[i]);
      }
    case Some(k) =>
      assert Qualifies(entries[k], target, filename) by { assert q(entries[k]); }
      forall i | 0 <= i < |entries| && Qualifies(entries[i], target, filename)
          && (forall j :: 0 <= j < i ==> !Qualifies(entries[j], target, filename))
        ensures i == k
      {
        assert !(i < k) by { assert q(entries[i]); }
        assert !(k < i);
      }
  }

  /** One step of the scan: a qualifying head is returned, any other head
      is passed over. */
  lemma LocateCons(e: Entry, rest: seq<Entry>, target: seq<byte>, filename: seq<byte>)
    ensures Locate(Some([e] + rest), target, filename) ==
      if Qualifies(e, target, filename) then Found(FullPath(e.dName, filename))
      else Locate(Some(rest), target, filename)
  {
    assert ([e] + rest)[0] == e;
    assert ([e] + rest)[1..] == rest;
  }

  /** An entry that does not qualify never influences the result, wherever
      it stands in the enumeration. */
  lemma {:induction false} SkipsNonQualifying(a: seq<Entry>, e: Entry, b: seq<Entry>, target: seq<byte>, filename: seq<byte>)
    requires !Qualifies(e, target, filename)
    ensures Locate(Some(a + [e] + b), target, filename) == Locate(Some(a + b), target, filename)
  {
    if a == [] {
      assert a + [e] + b == [e] + b;
      assert a + b == b;
      LocateCons(e, b, target, filename);
    } else {
      assert a + [e] + b == [a[0]] + (a[1..] + [e] + b);
      assert a + b == [a[0]] + (a[1..] + b);
      LocateCons(a[0], a[1..] + [e] + b, target, filename);
      LocateCons(a[0], a[1..] + b, target, filename);
      SkipsNonQualifying(a[1..], e, b, target, filename);
    }
  }

  /** Prefix filter: an entry whose name does not begin with "hwmon" is
      never selected, whatever its `name` file says. */
  lemma NonHwmonEntryIgnored(a: seq<Entry>, e: Entry, b: seq<Entry>, target: seq<byte>, filename: seq<byte>)
    requires !HasHwmonPrefix(e.dName)
    ensures Locate(Some(a + [e] + b), target, filename) == Locate(Some(a + b), target, filename)
  {
    SkipsNonQualifying(a, e, b, target, filename);
  }

  /** An entry whose `name` file cannot be opened is skipped, not an error. */
  lemma UnreadableNameSkipped(a: seq<Entry>, e: Entry, b: seq<Entry>, target: seq<byte>, filename: seq<byte>)
    requires e.nameFile.None?
    ensures Locate(Some(a + [e] + b), target, filename) == Locate(Some(a + b), target, filename)
  {
    SkipsNonQualifying(a, e, b, target, filename);
  }

  /** Name test: an entry whose `name` file opens but whose compared first
      line differs from the target in any byte or in length is skipped. */
  lemma NameMismatchSkipped(a: seq<Entry>, e: Entry, b: seq<Entry>, target: seq<byte>, filename: seq<byte>)
    requires e.nameFile.Some? && ComparedName(e.nameFile.value) != Some(target)
    ensures Locate(Some(a + [e] + b), target, filename) == Locate(Some(a + b), target, filename)
  {
    SkipsNonQualifying(a, e, b, target, filename);
  }

  /** A device whose name matches but which lacks the metric file does not
      stop the scan: the entries after it are still searched. */
  lemma MissingMetricFileContinues(a: seq<Entry>, e: Entry, b: seq<Entry>, target: seq<byte>, filename: seq<byte>)
    requires HasHwmonPrefix(e.dName) && e.nameFile.Some? && ComparedName(e.nameFile.value) == Some(target)
    requires filename !in e.files
    ensures Locate(Some(a + [e] + b), target, filename) == Locate(Some(a + b), target, filename)
  {
    SkipsNonQualifying(a, e, b, target, filename);
  }

  /** First match wins: the first qualifying entry is returned, whatever
      follows it. */
  lemma {:induction false} FirstMatchWins(a: seq<Entry>, e: Entry, b: seq<Entry>, target: seq<byte>, filename: seq<byte>)
    requires forall j :: 0 <= j < |a| ==> !Qualifies(a[j], target, filename)
    requires Qualifies(e, target, filename)
    ensures Locate(Some(a + [e] + b), target, filename) == Found(FullPath(e.dName, filename))
  {
    if a == [] {
      assert a + [e] + b == [e] + b;
      LocateCons(e, b, target, filename);
    } else {
      assert a + [e] + b == [a[0]] + (a[1..] + [e] + b);
      LocateCons(a[0], a[1..] + [e] + b, target, filename);
      FirstMatchWins(a[1..], e, b, target, filename);
    }
  }

  /** find_hwmon_file: scan the entries in order, skipping those without
      the prefix and those whose `name` file does not open; return the path
      of the first whose first line equals the target and whose metric file
      exists. */
  method FindHwmonFile(root: Option<seq<Entry>>, target: seq<byte>, filename: seq<byte>) returns (r: LocateResult)
    ensures r == Locate(root, target, filename)
  {
    if root.None? {
      return RootUnavailable;
    }
    var entries := root.value;
    var i := 0;
    while i < |entries|
      invariant i <= |entries|
      invariant forall j :: 0 <= j < i ==> !Qualifies(entries[j], target, filename)
    {
      var entry := entries[i];
      i := i + 1;
      if !HasHwmonPrefix(entry.dName) {
        continue;
      }
      if entry.nameFile.None? {
        continue;
      }
      var line := Fgets(entry.nameFile.value);
      if line.Some? {
        var name := CutAtNewline(line.value);
        if name == target {
          var fullPath := FullPath(entry.dName, filename);
          if filename in entry.files {
            FirstWhereAt(entries, QualifiesFor(target, filename), i - 1);
            return Found(fullPath);
          }
        }
      }
    }
    return NotFound;
  }
}
