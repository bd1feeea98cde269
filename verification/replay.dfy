/** Per-episode replay file naming:
    `{cwd}/replay_files/{env_name}/{timestamp}/replay_{episode}.txt`. */
module Replay {

  /** `os.path.join(a, b)` for a relative component `b`. */
  function Join(a: string, b: string): string
  {
    a + "/" + b
  }

  function DigitChar(d: nat): (c: char)
    requires d < 10
    ensures '0' <= c <= '9'
  {
    "0123456789"[d]
  }

  function DigitValue(c: char): (d: nat)
    ensures d < 10
  {
    if '0' <= c <= '9' then (c - '0') as nat else 0
  }

  /** Python's `f"{n}"` for a non-negative integer: decimal digits, no leading zero. */
  function DecimalString(n: nat): (s: string)
    ensures |s| >= 1
    ensures forall i :: 0 <= i < |s| ==> '0' <= s[i] <= '9'
    ensures n < 10 ==> |s| == 1
    ensures n >= 10 ==> |s| >= 2
    ensures n >= 1 ==> s[0] != '0'
  {
    if n < 10 then [DigitChar(n)] else DecimalString(n / 10) + [DigitChar(n % 10)]
  }

  /** Reads back a string of decimal digits. */
  function ParseDecimal(s: string): nat
  {
    if s == [] then 0 else ParseDecimal(s[..|s| - 1]) * 10 + DigitValue(s[|s| - 1])
  }

  lemma DigitRoundTrip(d: nat)
    requires d < 10
    ensures DigitValue(DigitChar(d)) == d
  {
  }

  /** Formatting an episode number loses nothing. */
  lemma {:induction false} DecimalRoundTrip(n: nat)
    ensures ParseDecimal(DecimalString(n)) == n
  {
    DigitRoundTrip(n % 10);
    if n < 10 {
      assert DecimalString(n)[..0] == [];
    } else {
      var s := DecimalString(n);
      assert s[..|s| - 1] == DecimalString(n / 10);
      DecimalRoundTrip(n / 10);
    }
  }

  /** `replay_{episode}.txt` */
  function ReplayFileName(episode: nat): (r: string)
    ensures |r| >= 12 && r[..7] == "replay_" && r[|r| - 4..] == ".txt"
    ensures forall i :: 7 <= i < |r| - 4 ==> '0' <= r[i] <= '9'
    ensures ParseDecimal(r[7..|r| - 4]) == episode
  {
    DecimalRoundTrip(episode);
    var r := "replay_" + DecimalString(episode) + ".txt";
    assert r[7..|r| - 4] == DecimalString(episode);
    r
  }

  /** `os.path.join(os.getcwd(), "replay_files", env_name, timestamp_string)` */
  function ReplayDir(cwd: string, envName: string, timestamp: string): (r: string)
    ensures |r| == |cwd| + |envName| + |timestamp| + 15
    ensures r[..|cwd|] == cwd && r[|cwd|..|cwd| + 14] == "/replay_files/"
    ensures r[|cwd| + 14..|cwd| + 14 + |envName|] == envName
    ensures r[|r| - |timestamp| - 1..] == "/" + timestamp
  {
    var r := Join(Join(Join(cwd, "replay_files"), envName), timestamp);
    assert r == cwd + "/replay_files/" + envName + "/" + timestamp;
    r
  }

  /** The path handed to `set_replay_file` for an episode. */
  function ReplayPath(dir: string, episode: nat): (r: string)
    ensures |r| == |dir| + 1 + |ReplayFileName(episode)|
    ensures r[..|dir| + 1] == dir + "/" && r[|dir| + 1..] == ReplayFileName(episode)
  {
    Join(dir, ReplayFileName(episode))
  }

  /** The episode number can be read back from the path. */
  lemma ReplayPathEpisode(dir: string, episode: nat)
    ensures var p := ReplayPath(dir, episode);
            |p| >= |dir| + 12 &&
            ParseDecimal(p[|dir| + 8 .. |p| - 4]) == episode
  {
    var p := ReplayPath(dir, episode);
    var name := ReplayFileName(episode);
    assert p[|dir| + 8 .. |p| - 4] == p[|dir| + 1..][7..|name| - 4];
  }

  /** Two different episodes of one run never write to the same replay file. */
  lemma ReplayPathsDistinct(dir: string, e1: nat, e2: nat)
    requires e1 != e2
    ensures ReplayPath(dir, e1) != ReplayPath(dir, e2)
  {
    ReplayPathEpisode(dir, e1);
    ReplayPathEpisode(dir, e2);
  }
}
