/** Pipeline run ids and the lock file names built from them. */
module RunNames {
  import opened Prelude
  import opened Decimal
  import opened Instants

  predicate IsLowerHex(c: char) { IsDigit(c) || 'a' <= c <= 'f' }

  /** The bytes that reach a file name unchanged. */
  predicate IsPortable(c: char) {
    'a' <= c <= 'z' || 'A' <= c <= 'Z' || IsDigit(c) || c == '.' || c == '_' || c == '-'
  }

  function PortableChar(c: char): char {
    if IsPortable(c) then c else '_'
  }

  /** The basename of `run_lock_path`. */
  function LockName(id: string): string {
    seq(|id|, i requires 0 <= i < |id| => PortableChar(id[i])) + ".lock"
  }

  predicate IsRunId(id: string) {
    && |id| >= 30
    && (forall i :: 0 <= i < |id| - 30 ==> IsPortable(id[i]))
    && id[|id| - 30] == '-'
    && IsInstant(id[|id| - 29..|id| - 9])
    && id[|id| - 9] == '-'
    && (forall i :: |id| - 8 <= i < |id| ==> IsLowerHex(id[i]))
  }

  /** `open_pipeline_run` joins the command, the start instant and the digest prefix with `-`. */
  function RunIdOf(command: string, startedAt: string, sha8: string): string {
    command + "-" + startedAt + "-" + sha8
  }

  lemma BuiltIdsAreRunIds(command: string, startedAt: string, sha8: string)
    requires forall i :: 0 <= i < |command| ==> IsPortable(command[i])
    requires IsInstant(startedAt)
    requires |sha8| == 8 && forall i :: 0 <= i < 8 ==> IsLowerHex(sha8[i])
    ensures IsRunId(RunIdOf(command, startedAt, sha8))
  {
    var id := RunIdOf(command, startedAt, sha8);
    var n := |command|;
    assert |id| == n + 30 && id[..n] == command && id[n] == '-' && id[n + 21] == '-';
    assert id[n + 1..n + 21] == startedAt && id[n + 22..] == sha8;
    forall i | 0 <= i < n ensures IsPortable(id[i]) { assert id[i] == command[i]; }
    forall i | n + 22 <= i < |id| ensures IsLowerHex(id[i]) { assert id[i] == sha8[i - n - 22]; }
  }

  /** A run id gives back the command, the instant and the digest it was built from. */
  lemma RunIdReadsBack(command: string, startedAt: string, sha8: string)
    requires |startedAt| == 20 && |sha8| == 8
    ensures var id := RunIdOf(command, startedAt, sha8);
      && |id| == |command| + 30 && id[..|id| - 30] == command
      && id[|id| - 29..|id| - 9] == startedAt && id[|id| - 8..] == sha8
  {
    var id := RunIdOf(command, startedAt, sha8);
    assert |id| == |command| + 30;
  }

  /** `is_ascii_alphanumeric`, by code. */
  predicate IsAlphanumeric(c: char) { 48 <= c as int <= 57 || 65 <= c as int <= 90 || 97 <= c as int <= 122 }

  lemma PortableChars(c: char)
    ensures IsPortable(c) <==> IsAlphanumeric(c) || c in "._-"
  {
    assert "._-"[0] == '.' && "._-"[1] == '_' && "._-"[2] == '-';
  }

  /**
   A lock file's name keeps the portable characters of its id in place and holds
   no others, so it names no directory.
   */
  lemma LockNamesArePortable(id: string)
    ensures |LockName(id)| == |id| + 5 && LockName(id)[|id|..] == ".lock"
    ensures forall i :: 0 <= i < |id| ==>
      LockName(id)[i] == if IsAlphanumeric(id[i]) || id[i] in "._-" then id[i] else '_'
    ensures forall c :: c in LockName(id) ==> IsAlphanumeric(c) || c in "._-"
  {
    var name := LockName(id);
    forall i | 0 <= i < |name| ensures IsAlphanumeric(name[i]) || name[i] in "._-" {
      PortableChars(name[i]);
      if i < |id| { PortableChars(id[i]); } else { assert name[i] == ".lock"[i - |id|]; }
    }
    forall i | 0 <= i < |id| ensures name[i] == if IsAlphanumeric(id[i]) || id[i] in "._-" then id[i] else '_' {
      PortableChars(id[i]);
    }
  }

  lemma CharOfInstant(t: string, j: nat)
    requires IsInstant(t) && j < |t|
    ensures if j == 13 || j == 16 then t[j] == ':' else IsPortable(t[j])
  {
    if j < 4 { assert t[j] == t[..4][j]; }
    else if 5 <= j < 7 { assert t[j] == t[5..7][j - 5]; }
    else if 8 <= j < 10 { assert t[j] == t[8..10][j - 8]; }
    else if 11 <= j < 13 { assert t[j] == t[11..13][j - 11]; }
    else if 14 <= j < 16 { assert t[j] == t[14..16][j - 14]; }
    else if 17 <= j < 19 { assert t[j] == t[17..19][j - 17]; }
  }

  /** Only the two colons of the instant are changed, and they sit at fixed places. */
  lemma CharOfRunId(id: string, i: nat)
    requires IsRunId(id) && i < |id|
    ensures if i == |id| - 16 || i == |id| - 13 then id[i] == ':' else IsPortable(id[i])
  {
    if |id| - 29 <= i < |id| - 9 {
      CharOfInstant(id[|id| - 29..|id| - 9], i - (|id| - 29));
    }
  }

  /** Different runs have different lock files. */
  lemma LockNamesDistinguishRuns(a: string, b: string)
    requires IsRunId(a) && IsRunId(b) && LockName(a) == LockName(b)
    ensures a == b
  {
    assert |LockName(a)| == |a| + 5 && |LockName(b)| == |b| + 5;
    forall i | 0 <= i < |a| ensures a[i] == b[i] {
      assert LockName(a)[i] == PortableChar(a[i]) && LockName(b)[i] == PortableChar(b[i]);
      CharOfRunId(a, i);
      CharOfRunId(b, i);
    }
  }

  /** Two strings that are not run ids can share a lock file name. */
  lemma ArbitraryStringsMayCollide()
    ensures LockName("a:b") == LockName("a_b") && "a:b" != "a_b"
  {
    assert "a:b"[1] == ':' && "a_b"[1] == '_';
    assert PortableChar('a') == 'a' && PortableChar(':') == '_' && PortableChar('b') == 'b';
  }
}
