/**
 * CAN interface discovery: `MainActivity.findCanDevices` reads the kernel's
 * network device listing line by line and keeps the interface names that
 * start with `can`; `showStartDialog` picks one of three dialogs from the
 * result.
 */
module MainActivity {
  import opened CanBase

  /**
   * Characters that Java's `.` does not match (no DOTALL, no UNIX_LINES).
   * `readLine` already strips `\n` and `\r`, but the others can occur
   * inside a line.
   */
  predicate IsLineTerminator(c: char) {
    c == '\n' || c == '\r' || c == '\U{0085}' || c == '\U{2028}' || c == '\U{2029}'
  }

  /** How far into `line` the `(.*)` group can reach: up to the first line terminator. */
  function MatchLimit(line: string): (k: nat)
    ensures k <= |line|
    ensures forall i :: 0 <= i < k ==> !IsLineTerminator(line[i])
    ensures k < |line| ==> IsLineTerminator(line[k])
  {
    if |line| == 0 || IsLineTerminator(line[0]) then 0 else 1 + MatchLimit(line[1..])
  }

  /** How many spaces ` *` takes at the start of `line`: all of them. */
  function LeadingSpaces(line: string): (k: nat)
    ensures k <= |line|
    ensures forall i :: 0 <= i < k ==> line[i] == ' '
    ensures k < |line| ==> line[k] != ' '
  {
    if |line| == 0 || line[0] != ' ' then 0 else 1 + LeadingSpaces(line[1..])
  }

  /** The index of the last `:` in `s`, if any. */
  function LastColon(s: string): (r: Option<nat>)
    ensures r.None? <==> ':' !in s
    ensures r.Some? ==> r.value < |s| && s[r.value] == ':' && ':' !in s[r.value + 1..]
  {
    if |s| == 0 then None
    else if s[|s| - 1] == ':' then Some(|s| - 1)
    else
      var r := LastColon(s[..|s| - 1]);
      assert s == s[..|s| - 1] + [s[|s| - 1]];
      r
  }

  /**
   * Group 1 of `^ *(.*):` found in `line`, or `None` when the pattern does
   * not match. `(.*)` is greedy, so the name runs from the end of the
   * leading spaces to the LAST colon that `.` can reach.
   */
  function ExtractName(line: string): (r: Option<string>)
    ensures r.None? <==> ':' !in line[..MatchLimit(line)]
    ensures r.Some? ==>
      var s := LeadingSpaces(line);
      var e := s + |r.value|;
      && e < MatchLimit(line)
      && line[s..e] == r.value
      && line[e] == ':'
      && ':' !in line[e + 1..MatchLimit(line)]
  {
    var lim := MatchLimit(line);
    var s := LeadingSpaces(line);
    match LastColon(line[..lim])
    case None => None
    case Some(e) =>
      assert line[e] == ':';
      assert line[..lim][e + 1..] == line[e + 1..lim];
      Some(line[s..e])
  }

  predicate IsCanName(name: string) {
    |name| >= 3 && name[..3] == "can"
  }

  /** The device a single line contributes: its name when that name starts with `can`. */
  function LineDevices(line: string): seq<string> {
    match ExtractName(line)
    case Some(name) => if IsCanName(name) then [name] else []
    case None => []
  }

  /** The devices the loop has collected after reading `lines`, in file order. */
  function CanDevices(lines: seq<string>): seq<string> {
    if |lines| == 0 then [] else CanDevices(lines[..|lines| - 1]) + LineDevices(lines[|lines| - 1])
  }

  /**
   * `findCanDevices` over the lines the reader returned. `readFails` says
   * whether opening, reading or closing the listing threw an `IOException`
   * (after these lines were read); the Java method then returns `null`.
   */
  method FindCanDevices(lines: seq<string>, readFails: bool) returns (devices: Option<seq<string>>)
    ensures devices == if readFails then None else Some(CanDevices(lines))
  {
    var found: seq<string> := [];
    var i := 0;
    while i < |lines|
      invariant 0 <= i <= |lines|
      invariant found == CanDevices(lines[..i])
    {
      var line := lines[i];
      match ExtractName(line) {
        case Some(name) =>
          if IsCanName(name) {
            found := found + [name];
          }
        case None =>
      }
      assert lines[..i + 1][..i] == lines[..i];
      i := i + 1;
    }
    assert lines[..i] == lines;
    if readFails {
      return None;
    }
    return Some(found);
  }

  /** A line with no reachable `:` contributes no device. */
  lemma NoColonNoDevice(line: string)
    requires ':' !in line[..MatchLimit(line)]
    ensures LineDevices(line) == []
  {
  }

  /** Reading `a` and then `b` yields the devices of `a` followed by those of `b`: file order is kept. */
  lemma {:induction false} CanDevicesAppend(a: seq<string>, b: seq<string>)
    ensures CanDevices(a + b) == CanDevices(a) + CanDevices(b)
    decreases |b|
  {
    if |b| > 0 {
      var b' := b[..|b| - 1];
      assert (a + b)[..|a + b| - 1] == a + b';
      assert (a + b)[|a + b| - 1] == b[|b| - 1];
      CanDevicesAppend(a, b');
    } else {
      assert a + b == a;
    }
  }

  /** At most one device per line. */
  lemma {:induction false} CanDevicesLength(lines: seq<string>)
    ensures |CanDevices(lines)| <= |lines|
  {
    if |lines| > 0 {
      CanDevicesLength(lines[..|lines| - 1]);
    }
  }

  /**
   * A name is returned exactly when some line's extracted name is that name
   * and it starts with `can`.
   */
  lemma {:induction false} CanDevicesMembers(lines: seq<string>, name: string)
    ensures name in CanDevices(lines) <==>
      (IsCanName(name) && exists i :: 0 <= i < |lines| && ExtractName(lines[i]) == Some(name))
  {
    if |lines| > 0 {
      var init := lines[..|lines| - 1];
      var last := lines[|lines| - 1];
      CanDevicesMembers(init, name);
      if IsCanName(name) && (exists i :: 0 <= i < |lines| && ExtractName(lines[i]) == Some(name)) {
        var i :| 0 <= i < |lines| && ExtractName(lines[i]) == Some(name);
        if i < |lines| - 1 {
          assert init[i] == lines[i];
        }
      }
      if IsCanName(name) && (exists i :: 0 <= i < |init| && ExtractName(init[i]) == Some(name)) {
        var i :| 0 <= i < |init| && ExtractName(init[i]) == Some(name);
        assert lines[i] == init[i];
      }
    }
  }

  /** Every returned name starts with `can`. */
  lemma AllCanNames(lines: seq<string>)
    ensures forall d :: d in CanDevices(lines) ==> IsCanName(d)
  {
  }

  /** The three dialogs `showStartDialog` can show. */
  datatype StartDialog =
    | NoPermissionsDialog
    | NoInterfacesDialog
    | InterfaceListDialog(devices: seq<string>)

  /** `showStartDialog`'s choice: `null`, empty, and non-empty results each get their own dialog. */
  function Classify(devices: Option<seq<string>>): (d: StartDialog)
    ensures d.NoPermissionsDialog? <==> devices.None?
    ensures d.NoInterfacesDialog? <==> devices == Some([])
    ensures d.InterfaceListDialog? <==> devices.Some? && devices.value != []
    ensures d.InterfaceListDialog? ==> d.devices == devices.value
  {
    match devices
    case None => NoPermissionsDialog
    case Some(ds) => if ds == [] then NoInterfacesDialog else InterfaceListDialog(ds)
  }

  /**
   * End to end: the start dialog offers a list exactly when the listing was
   * readable and some line names a CAN device.
   */
  lemma StartDialogOffersList(lines: seq<string>, readFails: bool)
    ensures Classify(if readFails then None else Some(CanDevices(lines))).InterfaceListDialog?
      <==> !readFails && exists i :: 0 <= i < |lines| && LineDevices(lines[i]) != []
  {
    if !readFails {
      if CanDevices(lines) != [] {
        var d := CanDevices(lines)[0];
        CanDevicesMembers(lines, d);
        var i :| 0 <= i < |lines| && ExtractName(lines[i]) == Some(d);
        assert LineDevices(lines[i]) == [d];
      }
      if exists i :: 0 <= i < |lines| && LineDevices(lines[i]) != [] {
        var i :| 0 <= i < |lines| && LineDevices(lines[i]) != [];
        var d := LineDevices(lines[i])[0];
        CanDevicesMembers(lines, d);
      }
    }
  }
}
