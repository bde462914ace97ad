/** The parser of /proc/[pid]/stat: the name in parentheses comes from /proc/[pid]/comm, or
    else from a scan for the matching parenthesis; the rest is split at spaces. */
module ProcStat {
  import opened Options

  /* ---------- parentheses ---------- */

  function Weight(c: char): int {
    if c == '(' then 1 else if c == ')' then -1 else 0
  }

  /** Openings minus closings. */
  function Depth(s: string): int {
    if s == "" then 0 else Weight(s[0]) + Depth(s[1..])
  }

  /** Equal counts, and no prefix with more closings than openings. */
  predicate Balanced(s: string) {
    Depth(s) == 0 && forall i :: 0 <= i <= |s| ==> Depth(s[..i]) >= 0
  }

  predicate NoParentheses(s: string) {
    '(' !in s && ')' !in s
  }

  /* ---------- the scan ---------- */

  function FirstSpace(line: string): (p: nat)
    ensures p <= |line| && ' ' !in line[..p]
    ensures p < |line| ==> line[p] == ' '
  {
    if line == "" || line[0] == ' ' then 0 else 1 + FirstSpace(line[1..])
  }

  /** Where the innermost `open` pending parentheses are all closed, or the length. */
  function Close(s: string, open: int): (k: nat)
    ensures k <= |s|
  {
    if s == "" || open + Weight(s[0]) == 0 then 0 else 1 + Close(s[1..], open + Weight(s[0]))
  }

  /** Overrun is a read past the end of the line, undefined in the source. */
  datatype Scan = Overrun | Scan(name: string, offset: nat)

  function Scanned(line: string): Scan {
    var p := FirstSpace(line);
    if p + 1 >= |line| then Scan("", |line| + 2)
    else
      var k := p + 2 + Close(line[p + 2..], 1);
      if k == |line| then Overrun else Scan(line[p + 2..k], k + 2)
  }

  lemma CloseStep(line: string, k: nat, open: int)
    requires k < |line|
    ensures Close(line[k..], open) == if open + Weight(line[k]) == 0 then 0
                                      else 1 + Close(line[k + 1..], open + Weight(line[k]))
  {
    assert line[k..][1..] == line[k + 1..];
  }

  /** The inner loop: collect characters after the opening parenthesis at `opening`. */
  method ScanName(line: string, opening: nat) returns (name: string, k: nat)
    requires opening < |line|
    ensures k == opening + 1 + Close(line[opening + 1..], 1)
    ensures k < |line| ==> name == line[opening + 1..k]
  {
    name, k := "", opening;
    var left, right := 1, 0;
    ghost var closing := opening + 1 + Close(line[opening + 1..], 1);
    while left != right && k != |line|
      invariant opening <= k < |line|
      invariant name == line[opening + 1..k + 1]
      invariant left != right ==> closing == k + 1 + Close(line[k + 1..], left - right)
      invariant left == right ==> closing == k && name != ""
      decreases |line| - k
    {
      k := k + 1;
      if k == |line| {
        return;
      }
      CloseStep(line, k, left - right);
      if line[k] == ')' {
        right := right + 1;
      } else if line[k] == '(' {
        left := left + 1;
      }
      name := name + [line[k]];
    }
    name := name[..|name| - 1];
  }

  /** The scan used when /proc/[pid]/comm cannot be opened: the collected name, and the
      offset the remaining fields are taken from. */
  method FallbackScan(line: string) returns (scan: Scan)
    ensures scan == Scanned(line)
  {
    var name := "";
    var k := 0;
    while k < |line|
      invariant k <= |line| && name == ""
      invariant FirstSpace(line) == k + FirstSpace(line[k..])
    {
      if line[k] == ' ' {
        k := k + 1;
        if k != |line| {
          name, k := ScanName(line, k);
          if k == |line| {
            return Overrun;
          }
        }
        break;
      }
      assert line[k..][1..] == line[k + 1..];
      k := k + 1;
    }
    scan := Scan(name, k + 2);
  }

  /* ---------- lines and fields ---------- */

  /** QIODevice::readLine: up to and including the first newline. */
  function ReadLine(file: string): string {
    if file == "" then "" else if file[0] == '\n' then "\n" else [file[0]] + ReadLine(file[1..])
  }

  /** QByteArray::split(' '). */
  function Split(s: string): (r: seq<string>)
    ensures r != []
  {
    if s == "" then [""]
    else
      var rest := Split(s[1..]);
      if s[0] == ' ' then [""] + rest else Prefixed(s[0], rest)
  }

  /** One more character at the front of the first piece. */
  function Prefixed(c: char, pieces: seq<string>): (r: seq<string>)
    requires pieces != []
    ensures r != []
  {
    [[c] + pieces[0]] + pieces[1..]
  }

  function Join(fields: seq<string>): string
    requires fields != []
  {
    if |fields| == 1 then fields[0] else fields[0] + " " + Join(fields[1..])
  }

  datatype Params =
    | Unreadable                       // the source returns an empty vector
    | OutOfRange                       // an offset or index past the end: undefined in the source
    | Values(values: seq<string>)

  /** Name and offset, by either route. */
  function Located(pid: string, line: string, comm: Option<string>): Scan {
    match comm
    case Some(file) => Scan(ReadLine(file), |ReadLine(file)| + |pid| + 3)
    case None => Scanned(line)
  }

  /** All parameters of a stat line, in the order of proc(5). */
  function AllParams(pid: string, line: string, comm: Option<string>): Params {
    var scan := Located(pid, line, comm);
    if scan.Overrun? || scan.offset > |line| then OutOfRange
    else Values([pid, scan.name] + Split(line[scan.offset..]))
  }

  function Selected(all: Params, indices: seq<nat>): Params {
    if !all.Values? then all
    else if exists i :: 0 <= i < |indices| && indices[i] >= |all.values| then OutOfRange
    else Values(seq(|indices|, i requires 0 <= i < |indices| => all.values[indices[i]]))
  }

  method Select(params: seq<string>, indices: seq<nat>) returns (result: Params)
    ensures result == Selected(Values(params), indices)
  {
    var values := [];
    var i := 0;
    while i < |indices|
      invariant 0 <= i <= |indices|
      invariant forall j :: 0 <= j < i ==> indices[j] < |params|
      invariant values == seq(i, j requires 0 <= j < i => params[indices[j]])
    {
      if indices[i] >= |params| {
        return OutOfRange;
      }
      values := values + [params[indices[i]]];
      i := i + 1;
    }
    return Values(values);
  }

  /** `stat` and `comm` are the contents of the two files, None when one cannot be opened. */
  method GetStatParams(pid: string, stat: Option<string>, comm: Option<string>, indices: seq<nat>)
    returns (result: Params)
    ensures stat == None || stat == Some("") ==> result == Unreadable
    ensures stat.Some? && stat.value != "" ==>
              result == Selected(AllParams(pid, ReadLine(stat.value), comm), indices)
  {
    if stat.None? {
      return Unreadable;
    }
    var line := ReadLine(stat.value);
    if line == "" {
      return Unreadable;
    }
    var name, offset;
    match comm {
      case Some(file) =>
        name := ReadLine(file);
        offset := |name| + |pid| + 3;
      case None =>
        var scan := FallbackScan(line);
        if scan.Overrun? {
          return OutOfRange;
        }
        name, offset := scan.name, scan.offset;
    }
    if offset > |line| {
      return OutOfRange;
    }
    result := Select([pid, name] + Split(line[offset..]), indices);
  }

  /* ---------- what the scan finds ---------- */

  /** The scan stops at the first position where as many parentheses are closed as opened,
      the one before the scanned text included, or at the end when there is none. */
  lemma {:induction false} CloseIsFirst(s: string, open: int)
    ensures forall n :: 1 <= n <= Close(s, open) ==> open + Depth(s[..n]) != 0
    ensures Close(s, open) < |s| ==> open + Depth(s[..Close(s, open) + 1]) == 0
    decreases |s|
  {
    if s != "" {
      var next := open + Weight(s[0]);
      forall n | 1 <= n <= |s| ensures Depth(s[..n]) == Weight(s[0]) + Depth(s[1..][..n - 1]) {
        assert s[..n][1..] == s[1..][..n - 1];
      }
      assert Depth(s[1..][..0]) == 0;
      if next != 0 {
        CloseIsFirst(s[1..], next);
        forall n | 1 <= n <= Close(s, open) ensures open + Depth(s[..n]) != 0 {
          if n > 1 { assert next + Depth(s[1..][..n - 1]) != 0; }
        }
      }
    }
  }

  /** A line without a space before its last character has no parameters. */
  lemma NoFields(pid: string, line: string)
    requires line != "" && ' ' !in line[..|line| - 1]
    ensures AllParams(pid, line, None) == OutOfRange
  {
    forall i | 0 <= i < |line| - 1 ensures line[i] != ' ' {
      assert line[i] in line[..|line| - 1];
    }
  }

  /* ---------- the scan finds the name exactly when it is balanced ---------- */

  lemma {:induction false} CloseBeyond(tail: string, open: int)
    requires open >= 1 && NoParentheses(tail)
    ensures Close(tail, open) == |tail|
  {
    if tail != "" {
      assert tail[0] in tail;
      CloseBeyond(tail[1..], open);
    }
  }

  /** Some prefix of `c` closes all of `open` parentheses. */
  predicate Exhausts(c: string, open: int) {
    exists i :: 0 <= i <= |c| && open + Depth(c[..i]) <= 0
  }

  lemma {:induction false} CloseWithin(c: string, rest: string, open: int)
    requires open >= 1
    ensures Exhausts(c, open) ==> Close(c + rest, open) < |c|
    ensures !Exhausts(c, open) ==>
              open + Depth(c) >= 1 && Close(c + rest, open) == |c| + Close(rest, open + Depth(c))
    decreases |c|
  {
    if c == "" {
      assert c + rest == rest;
    } else {
      var next := open + Weight(c[0]);
      assert (c + rest)[1..] == c[1..] + rest;
      forall i | 1 <= i <= |c| ensures Depth(c[..i]) == Weight(c[0]) + Depth(c[1..][..i - 1]) {
        assert c[..i][1..] == c[1..][..i - 1];
      }
      if next == 0 {
        assert open + Depth(c[..1]) <= 0 by { assert c[1..][..0] == ""; }
      } else {
        CloseWithin(c[1..], rest, next);
        if Exhausts(c[1..], next) {
          var i :| 0 <= i <= |c[1..]| && next + Depth(c[1..][..i]) <= 0;
          assert open + Depth(c[..i + 1]) <= 0;
        } else {
          forall i | 0 <= i <= |c| ensures open + Depth(c[..i]) > 0 {
            if i > 0 { assert next + Depth(c[1..][..i - 1]) > 0; }
          }
        }
      }
    }
  }

  lemma {:induction false} FirstSpaceAfter(a: string, b: string)
    requires ' ' !in a
    ensures FirstSpace(a + " " + b) == |a|
  {
    if a == "" {
      assert a + " " + b == " " + b;
    } else {
      assert (a + " " + b)[1..] == a[1..] + " " + b;
      assert a[0] in a;
      FirstSpaceAfter(a[1..], b);
    }
  }

  /** `pid (comm) rest` */
  function Printed(pid: string, comm: string, rest: string): string {
    pid + " " + "(" + comm + ")" + " " + rest
  }

  function StateOffset(pid: string, comm: string): nat {
    |pid| + |comm| + 4
  }

  lemma PrintedParts(pid: string, comm: string, rest: string)
    ensures var line := Printed(pid, comm, rest);
      && line == pid + " " + ("(" + comm + ") " + rest)
      && |line| >= |pid| + 2
      && line[|pid| + 2..] == comm + (") " + rest)
      && line[StateOffset(pid, comm)..] == rest
  {
  }

  lemma ExhaustsIff(c: string)
    ensures Balanced(c) <==> !Exhausts(c, 1) && Depth(c) == 0
  {
    if Exhausts(c, 1) {
      var i :| 0 <= i <= |c| && 1 + Depth(c[..i]) <= 0;
      assert !(Depth(c[..i]) >= 0);
    } else {
      assert forall i :: 0 <= i <= |c| ==> 1 + Depth(c[..i]) > 0;
    }
  }

  /** The parenthesis opened before the name is closed right after it exactly when the name
      is balanced. */
  lemma ClosedAfterName(comm: string, rest: string)
    requires NoParentheses(rest)
    ensures Close(comm + (") " + rest), 1) == |comm| <==> Balanced(comm)
  {
    var tail := ") " + rest;
    CloseWithin(comm, tail, 1);
    ExhaustsIff(comm);
    if !Exhausts(comm, 1) && Depth(comm) != 0 {
      assert tail[1..] == " " + rest;
      CloseBeyond(tail[1..], Depth(comm));
    }
  }

  lemma ScannedPrinted(pid: string, comm: string, rest: string)
    requires ' ' !in pid
    ensures var line, k := Printed(pid, comm, rest), Close(comm + (") " + rest), 1);
      Scanned(line) == if |pid| + 2 + k == |line| then Overrun
                       else Scan((comm + (") " + rest))[..k], |pid| + 2 + k + 2)
  {
    var line, k := Printed(pid, comm, rest), Close(comm + (") " + rest), 1);
    PrintedParts(pid, comm, rest);
    FirstSpaceAfter(pid, "(" + comm + ") " + rest);
    assert line[|pid| + 2..|pid| + 2 + k] == line[|pid| + 2..][..k];
  }

  /** On any printed line whose fields hold no parentheses, the scan recovers the name, and
      the offset of the state field, exactly when the name is balanced. */
  lemma ScanRecoversIff(pid: string, comm: string, rest: string)
    requires ' ' !in pid && NoParentheses(rest)
    ensures var scan := Scanned(Printed(pid, comm, rest));
      && (Balanced(comm) <==> scan == Scan(comm, StateOffset(pid, comm)))
      && (Balanced(comm) <==> scan.Scan? && scan.offset == StateOffset(pid, comm))
  {
    ScannedPrinted(pid, comm, rest);
    ClosedAfterName(comm, rest);
    assert (comm + (") " + rest))[..|comm|] == comm;
  }

  /* ---------- both routes, and printing then parsing ---------- */

  /** A line ends with its newline, or with the file. */
  lemma {:induction false} ReadLineWhole(s: string, more: string)
    requires '\n' !in s
    ensures ReadLine(s + "\n" + more) == s + "\n" && ReadLine(s) == s
  {
    if s == "" {
      assert s + "\n" + more == "\n" + more;
    } else {
      assert s[0] in s;
      assert (s + "\n" + more)[1..] == s[1..] + "\n" + more;
      assert [s[0]] + s[1..] == s;
      ReadLineWhole(s[1..], more);
    }
  }

  lemma {:induction false} SplitAtSpace(f: string, rest: string)
    requires ' ' !in f
    ensures Split(f) == [f]
    ensures Split(f + " " + rest) == [f] + Split(rest)
  {
    if f == "" {
      assert (f + " " + rest)[1..] == rest;
    } else {
      assert (f + " " + rest)[1..] == f[1..] + " " + rest;
      assert f[0] in f && [f[0]] + f[1..] == f;
      SplitAtSpace(f[1..], rest);
      assert Prefixed(f[0], [f[1..]] + Split(rest)) == [f] + Split(rest);
    }
  }

  lemma {:induction false} SplitJoin(fields: seq<string>)
    requires fields != [] && forall i :: 0 <= i < |fields| ==> ' ' !in fields[i]
    ensures Split(Join(fields)) == fields
  {
    if |fields| > 1 {
      var rest := fields[1..];
      SplitJoin(rest);
      SplitAtSpace(fields[0], Join(rest));
      assert [fields[0]] + rest == fields;
    } else {
      SplitAtSpace(fields[0], "");
    }
  }

  lemma JoinSpace(fields: seq<string>)
    requires fields != []
    ensures Join([""] + fields) == " " + Join(fields)
  {
    assert ([""] + fields)[1..] == fields;
  }

  lemma JoinPrefixed(c: char, fields: seq<string>)
    requires fields != []
    ensures Join(Prefixed(c, fields)) == [c] + Join(fields)
  {
    assert Prefixed(c, fields)[1..] == fields[1..];
  }

  /** Splitting loses nothing: joining the pieces gives the text back. */
  lemma {:induction false} JoinSplit(s: string)
    ensures Join(Split(s)) == s
  {
    if s != "" {
      var rest := Split(s[1..]);
      JoinSplit(s[1..]);
      JoinSpace(rest);
      JoinPrefixed(s[0], rest);
      assert s == [s[0]] + s[1..];
    }
  }

  /** The fields of a line, the last with the newline that readLine keeps. */
  function Ended(fields: seq<string>): seq<string>
    requires fields != []
  {
    fields[..|fields| - 1] + [fields[|fields| - 1] + "\n"]
  }

  lemma {:induction false} JoinNewline(fields: seq<string>)
    requires fields != []
    ensures Join(Ended(fields)) == Join(fields) + "\n"
  {
    if |fields| > 1 {
      JoinNewline(fields[1..]);
      assert Ended(fields)[1..] == Ended(fields[1..]);
      assert Ended(fields)[0] == fields[0];
    }
  }

  /** A field of the line: no separator, parenthesis or newline in it. */
  predicate Plain(f: string) {
    ' ' !in f && '\n' !in f && NoParentheses(f)
  }

  lemma {:induction false} PlainJoin(fields: seq<string>)
    requires fields != [] && forall i :: 0 <= i < |fields| ==> Plain(fields[i])
    ensures NoParentheses(Join(fields)) && '\n' !in Join(fields)
  {
    if |fields| > 1 { PlainJoin(fields[1..]); }
  }

  function StatFile(pid: string, comm: string, fields: seq<string>): string
    requires fields != []
  {
    Printed(pid, comm, Join(fields)) + "\n"
  }

  /** Both routes take the fields from the same offset, for every pid and every balanced
      name without a newline; the comm route needs no balance. */
  lemma RoutesAgree(pid: string, comm: string, rest: string)
    requires ' ' !in pid && NoParentheses(rest) && '\n' !in comm
    ensures var line := Printed(pid, comm, rest);
      && Located(pid, line, Some(comm + "\n")) == Scan(comm + "\n", StateOffset(pid, comm))
      && (Balanced(comm) <==>
            Located(pid, line, None).Scan? && Located(pid, line, None).offset == StateOffset(pid, comm))
  {
    ReadLineWhole(comm, "");
    assert comm + "\n" + "" == comm + "\n";
    ScanRecoversIff(pid, comm, rest);
  }

  /** The name a route yields: the comm file keeps its newline. */
  function RouteName(comm: string, fromFile: bool): string {
    if fromFile then comm + "\n" else comm
  }

  lemma ParsedPrinted(pid: string, comm: string, rest: string, fromFile: bool)
    requires ' ' !in pid && NoParentheses(rest) && '\n' !in comm && (fromFile || Balanced(comm))
    ensures AllParams(pid, Printed(pid, comm, rest), if fromFile then Some(comm + "\n") else None)
         == Values([pid, RouteName(comm, fromFile)] + Split(rest))
  {
    var scan := Located(pid, Printed(pid, comm, rest), if fromFile then Some(comm + "\n") else None);
    assert scan == Scan(RouteName(comm, fromFile), StateOffset(pid, comm)) by {
      RoutesAgree(pid, comm, rest);
      ScanRecoversIff(pid, comm, rest);
    }
    PrintedParts(pid, comm, rest);
  }

  lemma NoSpaceEnded(fields: seq<string>)
    requires fields != [] && forall i :: 0 <= i < |fields| ==> Plain(fields[i])
    ensures forall i :: 0 <= i < |Ended(fields)| ==> ' ' !in Ended(fields)[i]
  {
    forall i | 0 <= i < |fields| ensures ' ' !in Ended(fields)[i] {
      assert Plain(fields[i]);
    }
  }

  /** Splitting the joined fields of a line gives them back, the last with the newline. */
  lemma SplitLine(fields: seq<string>)
    requires fields != [] && forall i :: 0 <= i < |fields| ==> Plain(fields[i])
    ensures Split(Join(fields) + "\n") == Ended(fields)
  {
    NoSpaceEnded(fields);
    JoinNewline(fields);
    var ended := Ended(fields);
    assert Split(Join(ended)) == ended by { SplitJoin(ended); }
  }

  /** Printing a line per proc(5) and parsing it by either route gives back the pid, the name
      and every field in place; a newline stays at the end of the last field, and of a name
      read from the comm file. */
  lemma PrintThenParse(pid: string, comm: string, fields: seq<string>, fromFile: bool)
    requires Plain(pid) && '\n' !in comm
    requires fields != [] && forall i :: 0 <= i < |fields| ==> Plain(fields[i])
    requires fromFile || Balanced(comm)
    ensures var line := ReadLine(StatFile(pid, comm, fields));
      AllParams(pid, line, if fromFile then Some(comm + "\n") else None)
      == Values([pid, RouteName(comm, fromFile)] + Ended(fields))
  {
    var rest := Join(fields) + "\n";
    PlainJoin(fields);
    ReadLineWhole(Printed(pid, comm, Join(fields)), "");
    assert StatFile(pid, comm, fields) + "" == StatFile(pid, comm, fields);
    assert StatFile(pid, comm, fields) == Printed(pid, comm, rest);
    SplitLine(fields);
    ParsedPrinted(pid, comm, rest, fromFile);
  }

  /** Field i of proc(5), counted from pid and name, as either route yields it. */
  function FieldAt(pid: string, comm: string, fields: seq<string>, fromFile: bool, i: nat): string
    requires i < |fields| + 2
  {
    if i == 0 then pid
    else if i == 1 then RouteName(comm, fromFile)
    else if i == |fields| + 1 then fields[i - 2] + "\n"
    else fields[i - 2]
  }

  /** The indices select their fields of proc(5), in their own order, by either route; one
      index past the fields fails them all. */
  lemma IndexSelectsField(pid: string, comm: string, fields: seq<string>, fromFile: bool, indices: seq<nat>)
    requires Plain(pid) && '\n' !in comm
    requires fields != [] && forall j :: 0 <= j < |fields| ==> Plain(fields[j])
    requires fromFile || Balanced(comm)
    ensures var all := AllParams(pid, ReadLine(StatFile(pid, comm, fields)), if fromFile then Some(comm + "\n") else None);
            var selected := Selected(all, indices);
      && (selected == OutOfRange <==> exists j :: 0 <= j < |indices| && indices[j] >= |fields| + 2)
      && (selected != OutOfRange ==>
            && selected.Values? && |selected.values| == |indices|
            && forall j :: 0 <= j < |indices| ==>
                 indices[j] < |fields| + 2 && selected.values[j] == FieldAt(pid, comm, fields, fromFile, indices[j]))
  {
    PrintThenParse(pid, comm, fields, fromFile);
    var all := [pid, RouteName(comm, fromFile)] + Ended(fields);
    assert |all| == |fields| + 2;
    forall i | 0 <= i < |all| ensures all[i] == FieldAt(pid, comm, fields, fromFile, i) {
      if i >= 2 { assert all[i] == Ended(fields)[i - 2]; }
    }
  }
}
