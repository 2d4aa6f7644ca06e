/** `create_folder`: the archive folder is named by the local time formatted
    with `strftime('%y%m%d.%H%M')` and is created directly under the
    configured history path. */
module Archive {
  import opened Results

  /** The fields of `datetime.now()` the name depends on. */
  datatype DateTime = DateTime(year: int, month: int, day: int, hour: int, minute: int)

  /** The ranges `datetime` guarantees. */
  predicate ValidDateTime(t: DateTime) {
    1 <= t.year <= 9999 && 1 <= t.month <= 12 && 1 <= t.day <= 31
    && 0 <= t.hour < 24 && 0 <= t.minute < 60
  }

  /** What a folder name records: the year only modulo 100. */
  datatype Stamp = Stamp(yy: nat, month: nat, day: nat, hour: nat, minute: nat)

  function StampOf(t: DateTime): Stamp
    requires ValidDateTime(t)
  {
    Stamp(t.year % 100, t.month, t.day, t.hour, t.minute)
  }

  predicate IsDigit(c: char) {
    '0' <= c <= '9'
  }

  function DigitValue(c: char): (n: nat)
    requires IsDigit(c)
    ensures n < 10
  {
    c as int - '0' as int
  }

  /** `%02d`-style zero-padded two-digit field. */
  function TwoDigits(n: nat): (r: string)
    requires n < 100
    ensures |r| == 2 && IsDigit(r[0]) && IsDigit(r[1])
    ensures DigitValue(r[0]) * 10 + DigitValue(r[1]) == n
  {
    [('0' as int + n / 10) as char, ('0' as int + n % 10) as char]
  }

  /** `strftime('%y%m%d.%H%M')`. */
  function FolderName(t: DateTime): (r: string)
    requires ValidDateTime(t)
    ensures |r| == 11 && r[6] == '.'
    ensures forall i :: 0 <= i < 11 && i != 6 ==> IsDigit(r[i])
  {
    TwoDigits(t.year % 100) + TwoDigits(t.month) + TwoDigits(t.day) + "."
    + TwoDigits(t.hour) + TwoDigits(t.minute)
  }

  function FieldAt(s: string, i: nat): nat
    requires i + 1 < |s| && IsDigit(s[i]) && IsDigit(s[i + 1])
  {
    DigitValue(s[i]) * 10 + DigitValue(s[i + 1])
  }

  /** Reads a folder name back into the fields it records. */
  function ParseFolderName(s: string): Option<Stamp>
  {
    if |s| == 11 && s[6] == '.' && (forall i :: 0 <= i < 11 && i != 6 ==> IsDigit(s[i]))
    then Some(Stamp(FieldAt(s, 0), FieldAt(s, 2), FieldAt(s, 4), FieldAt(s, 7), FieldAt(s, 9)))
    else None
  }

  /** Every field of the timestamp is recoverable from the folder name,
      the year modulo 100. */
  lemma ParseFolderNameRoundTrip(t: DateTime)
    requires ValidDateTime(t)
    ensures ParseFolderName(FolderName(t)) == Some(StampOf(t))
  {
  }

  /** Two runs get the same folder exactly when they fall in the same minute
      of a year with the same last two digits; a second run within a minute
      therefore collides with the first. */
  lemma FolderNameCollision(t: DateTime, u: DateTime)
    requires ValidDateTime(t) && ValidDateTime(u)
    ensures FolderName(t) == FolderName(u) <==> StampOf(t) == StampOf(u)
  {
    ParseFolderNameRoundTrip(t);
    ParseFolderNameRoundTrip(u);
  }

  const Sep := '/'

  /** `os.path.join(dir, name)` for a relative `name`: a separator is
      inserted unless `dir` is empty or already ends with one. */
  function Join(dir: string, name: string): (r: string)
    ensures |r| >= |name| && r[|r| - |name|..] == name
    ensures |dir| == 0 ==> r == name
    ensures |dir| > 0 ==> |r| - |name| - 1 <= |dir| <= |r| - |name| && |r| > |name|
    ensures |dir| > 0 ==> r[|r| - |name| - 1] == Sep && r[..|dir|] == dir
    ensures |dir| > 0 && dir[|dir| - 1] == Sep ==> |r| == |dir| + |name|
    ensures |dir| > 0 && dir[|dir| - 1] != Sep ==> |r| == |dir| + 1 + |name|
  {
    if |dir| == 0 || dir[|dir| - 1] == Sep then dir + name else dir + [Sep] + name
  }

  /** The folder `create_folder` makes: its last component is the stamp,
      and what precedes that component is the history path itself. */
  function ArchiveFolder(historyPath: string, t: DateTime): (r: string)
    requires ValidDateTime(t)
    ensures |r| >= 11 && r[|r| - 11..] == FolderName(t)
    ensures Sep !in r[|r| - 11..]
    ensures |historyPath| == 0 ==> r == FolderName(t)
    ensures |historyPath| > 0 ==> |r| - 12 <= |historyPath| <= |r| - 11 && |r| >= 12
    ensures |historyPath| > 0 ==> r[|r| - 12] == Sep && r[..|historyPath|] == historyPath
    ensures |historyPath| > 0 && historyPath[|historyPath| - 1] == Sep ==> |r| == |historyPath| + 11
    ensures |historyPath| > 0 && historyPath[|historyPath| - 1] != Sep ==> |r| == |historyPath| + 12
  {
    var name := FolderName(t);
    assert Sep !in name by {
      forall i | 0 <= i < |name|
        ensures name[i] != Sep
      {
        if i != 6 {
          assert IsDigit(name[i]);
        }
      }
    }
    Join(historyPath, name)
  }
}
