/**
Where the collector's run metadata comes from: the clock, the command line, git, and the Reverie
revision locked in Cargo.lock.
*/
module Revisions {
  import opened Text
  import opened Envelope

  /** What the collector finds on its host; a failed git command or unreadable lock file is absent. */
  datatype Host = Host(now: nat, runId: Option<string>, head: Option<string>, lock: Option<seq<string>>,
                       status: Option<string>)

  const REVERIE_URL := "github.com/rrnewton/reverie.git"
  const UNKNOWN := "unknown"

  /** The text after the last `#`. */
  function AfterLastHash(line: string): (r: Option<string>)
    ensures r.Some? <==> '#' in line
  {
    if line == "" then None
    else
      var later := AfterLastHash(line[1..]);
      if later.Some? then later else if line[0] == '#' then Some(line[1..]) else None
  }

  /** The hexadecimal digits a text starts with. */
  function HexPrefix(s: string): (r: string)
    ensures r <= s && forall i :: 0 <= i < |r| ==> HexDigit(r[i])
    ensures |r| < |s| ==> !HexDigit(s[|r|])
  {
    if s == "" || !HexDigit(s[0]) then "" else [s[0]] + HexPrefix(s[1..])
  }

  /** The revision a lock line pins, lower-cased: always forty lower-case digits. */
  function RevisionOf(line: string): (r: Option<string>)
    ensures r.Some? ==> LowerHex(r.value, 40)
  {
    var suffix := AfterLastHash(line);
    if !Contains(line, REVERIE_URL) || suffix.None? then None
    else
      var sha := HexPrefix(suffix.value);
      if |sha| == 40 then Some(Lower(sha)) else None
  }

  /** The distinct revisions pinned, in order of appearance. */
  function RevisionsOf(lines: seq<string>): (r: seq<string>)
    ensures forall s :: s in r <==> exists line <- lines :: RevisionOf(line) == Some(s)
    ensures forall i, j :: 0 <= i < j < |r| ==> r[i] != r[j]
  {
    if lines == [] then []
    else
      var n := |lines| - 1;
      assert lines == lines[..n] + [lines[n]];
      var front, last := RevisionsOf(lines[..n]), RevisionOf(lines[n]);
      if last.None? || last.value in front then front else front + [last.value]
  }

  function LockedReverie(lines: seq<string>): (r: Option<string>) {
    var revisions := RevisionsOf(lines);
    if |revisions| == 1 then Some(revisions[0]) else None
  }

  method LockedReverieSha(lines: seq<string>) returns (r: Option<string>)
    ensures r == LockedReverie(lines)
  {
    var revisions: seq<string> := [];
    for i := 0 to |lines|
      invariant revisions == RevisionsOf(lines[..i])
    {
      assert lines[..i + 1][..i] == lines[..i];
      if !Contains(lines[i], REVERIE_URL) {
        continue;
      }
      var suffix := AfterLastHash(lines[i]);
      if suffix.None? {
        continue;
      }
      var sha := HexPrefix(suffix.value);
      if |sha| == 40 && Lower(sha) !in revisions {
        revisions := revisions + [Lower(sha)];
      }
    }
    assert lines[..|lines|] == lines;
    r := if |revisions| == 1 then Some(revisions[0]) else None;
  }

  /** A revision is reported exactly when every line that pins one pins that one. */
  lemma {:induction false} LockedExact(lines: seq<string>, s: string)
    ensures LockedReverie(lines) == Some(s) <==>
            && (exists line <- lines :: RevisionOf(line) == Some(s))
            && (forall line <- lines :: RevisionOf(line).Some? ==> RevisionOf(line) == Some(s))
  {
    var revisions := RevisionsOf(lines);
    if LockedReverie(lines) == Some(s) {
      assert revisions[0] in revisions;
      forall line | line in lines && RevisionOf(line).Some? ensures RevisionOf(line) == Some(s) {
        assert RevisionOf(line).value in revisions;
      }
    } else if s in revisions {
      OtherMember(revisions, s);
    }
  }

  lemma {:induction false} OtherMember(xs: seq<string>, s: string)
    requires |xs| > 1 && s in xs && forall i, j :: 0 <= i < j < |xs| ==> xs[i] != xs[j]
    ensures exists t <- xs :: t != s
  {
    var i :| 0 <= i < |xs| && xs[i] == s;
    var k := if i == 0 then 1 else 0;
    assert xs[k] in xs && xs[k] != s;
  }

  /** The run metadata; a command line run id is taken as given. */
  function MetaOf(host: Host): (m: Meta) {
    var reverie := if host.lock.None? then None else LockedReverie(host.lock.value);
    Meta(if host.runId.Some? then host.runId.value else Decimal(host.now),
         "@" + Decimal(host.now),
         if host.head.Some? then host.head.value else UNKNOWN,
         if reverie.Some? then reverie.value else UNKNOWN,
         host.status.Some? && host.status.value != "")
  }

  lemma {:induction false} LockedLower(lines: seq<string>)
    ensures LockedReverie(lines).Some? ==> LowerHex(LockedReverie(lines).value, 40)
  {
    var revisions := RevisionsOf(lines);
    if |revisions| == 1 {
      assert revisions[0] in revisions;
      var line :| line in lines && RevisionOf(line) == Some(revisions[0]);
    }
  }

  lemma {:induction false} StartNotBlank(s: string)
    requires s != "" && !IsSpace(s[0])
    ensures Strip(s) != ""
  {
    assert StripLeft(s) == s;
    EndNotBlank(s);
  }

  lemma {:induction false} EndNotBlank(s: string)
    requires s != "" && !IsSpace(s[0])
    ensures StripRight(s) != ""
  {
    if IsSpace(s[|s| - 1]) {
      EndNotBlank(s[..|s| - 1]);
    }
  }

  /**
   Whatever the host: the Reverie revision is forty lower-case digits or unknown, the run time is never blank,
   and a run id is blank only if the command line gave a blank one.
   */
  lemma {:induction false} MetaShape(host: Host)
    ensures var m := MetaOf(host);
            && (m.reverieSha == UNKNOWN || LowerHex(m.reverieSha, 40))
            && (ExactSha(m.reverieSha) ==> LowerHex(m.reverieSha, 40))
            && Strip(m.runUtc) != ""
            && (host.runId.None? ==> Strip(m.runId) != "")
  {
    if host.lock.Some? {
      LockedLower(host.lock.value);
    }
    assert |UNKNOWN| == 7;
    StartNotBlank("@" + Decimal(host.now));
    StartNotBlank(Decimal(host.now));
  }

  // ------------------------------------------------------------- a lock line

  /** A line of Cargo.lock that pins a revision. */
  function LockLine(sha: string): (line: string) {
    REVERIE_URL + "#" + sha
  }

  lemma {:induction false} AfterHash(front: string, back: string)
    requires '#' !in back
    ensures AfterLastHash(front + "#" + back) == Some(back)
    decreases |front|
  {
    var line := front + "#" + back;
    if front == "" {
      assert line[1..] == back;
    } else {
      assert line[1..] == front[1..] + "#" + back;
      AfterHash(front[1..], back);
    }
  }

  lemma {:induction false} AllHex(s: string)
    requires forall i :: 0 <= i < |s| ==> HexDigit(s[i])
    ensures HexPrefix(s) == s
  {
    if s != "" {
      AllHex(s[1..]);
    }
  }

  lemma {:induction false} LockLinePins(sha: string)
    requires LowerHex(sha, 40)
    ensures RevisionOf(LockLine(sha)) == Some(sha)
  {
    AfterHash(REVERIE_URL, sha);
    AllHex(sha);
    var line := LockLine(sha);
    assert line[..|REVERIE_URL|] == REVERIE_URL;
    assert Lower(sha) == sha;
  }
}
