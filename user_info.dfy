/**
 * The participant registry of user_info.py.
 *
 * static/save_data/users.csv is a sequence of CSV rows whose first row is
 * the header; each participant also owns a directory
 * static/save_data/<user_id> whose numbered sub-directories are the trials
 * already recorded.  save_user_info checks a (name, id) pair against the
 * table, counts the trials, creates the directory of a new id, and appends
 * a row for a new user.
 */
module UserInfo {
  import opened Wrappers

  /** One CSV row: the fields name, user_id and gender. */
  datatype CsvRow = CsvRow(name: string, userId: string, gender: string)

  /** writer.writeheader() writes the field names as a row. */
  const HEADER: CsvRow := CsvRow("name", "user_id", "gender")

  /** An entry of os.listdir(user_dir), with os.path.isdir of it. */
  datatype DirEntry = DirEntry(name: string, isDir: bool)

  /** makedirs(user_dir + "/logs") leaves user_dir holding one directory, logs. */
  const NEW_USER_DIR: seq<DirEntry> := [DirEntry("logs", true)]

  /** A table this module writes: empty, or the header followed by records. */
  predicate WellFormed(lines: seq<CsvRow>)
  {
    lines == [] || lines[0] == HEADER
  }

  /** csv.DictReader takes the first row as the field names and yields the rest. */
  function Records(lines: seq<CsvRow>): (r: seq<CsvRow>)
    ensures |lines| == 0 ==> r == []
    ensures 0 < |lines| ==> |r| == |lines| - 1 && forall k :: 0 <= k < |r| ==> r[k] == lines[k + 1]
  {
    if |lines| == 0 then [] else lines[1..]
  }

  /** The row the append step writes: the header first when the file is empty. */
  function Appended(lines: seq<CsvRow>, row: CsvRow): (r: seq<CsvRow>)
    ensures WellFormed(lines) ==> WellFormed(r) && Records(r) == Records(lines) + [row]
  {
    if lines == [] then [HEADER, row] else lines + [row]
  }

  /** Index of the first record whose user_id is id, where the scan stops. */
  function FirstWithId(rows: seq<CsvRow>, id: string): (r: Option<nat>)
    ensures r.Some? ==> r.value < |rows| && rows[r.value].userId == id
                        && forall j :: 0 <= j < r.value ==> rows[j].userId != id
    ensures r.None? <==> forall j :: 0 <= j < |rows| ==> rows[j].userId != id
  {
    if |rows| == 0 then None
    else if rows[0].userId == id then Some(0)
    else match FirstWithId(rows[1..], id)
      case None => None
      case Some(k) => Some(k + 1)
  }

  /** The first match is unique, so FirstWithId finds exactly it. */
  lemma FirstWithIdFinds(rows: seq<CsvRow>, id: string, i: int)
    requires 0 <= i < |rows| && rows[i].userId == id
    requires forall j :: 0 <= j < i ==> rows[j].userId != id
    ensures FirstWithId(rows, id) == Some(i)
  {
    var r := FirstWithId(rows, id);
    assert r.Some? by { assert rows[i].userId == id; }
    assert rows[r.value].userId == id;
  }

  /** str.isdigit on ASCII names: non-empty and only the characters 0 to 9. */
  predicate IsDigits(s: string)
  {
    0 < |s| && forall k :: 0 <= k < |s| ==> '0' <= s[k] <= '9'
  }

  /** A trial directory: a sub-directory with an all-digit name. */
  predicate IsTrialDir(d: DirEntry)
  {
    d.isDir && IsDigits(d.name)
  }

  /** The number of trial directories among the entries. */
  function CountTrials(entries: seq<DirEntry>): (r: nat)
    ensures r <= |entries|
    ensures r == 0 <==> forall k :: 0 <= k < |entries| ==> !IsTrialDir(entries[k])
  {
    if |entries| == 0 then 0
    else CountTrials(entries[..|entries| - 1]) + (if IsTrialDir(entries[|entries| - 1]) then 1 else 0)
  }

  /** Recording one more trial directory advances the count by one; any other entry leaves it. */
  lemma CountTrialsAppend(entries: seq<DirEntry>, d: DirEntry)
    ensures CountTrials(entries + [d]) == CountTrials(entries) + (if IsTrialDir(d) then 1 else 0)
  {
    assert (entries + [d])[..|entries|] == entries;
  }

  /** trial_number: one more than the recorded trials, 1 for an unknown id. */
  function TrialNumber(dirs: map<string, seq<DirEntry>>, id: string): (r: int)
    ensures 1 <= r
    ensures id !in dirs ==> r == 1
  {
    if id in dirs then CountTrials(dirs[id]) + 1 else 1
  }

  /**
   * After a new user is registered, the next save with the same name and id
   * finds that user's row, and a save with the same id but another name is
   * refused.
   */
  lemma RegisteredUserIsFound(lines: seq<CsvRow>, name: string, id: string, gender: string)
    requires WellFormed(lines) && FirstWithId(Records(lines), id).None?
    ensures var rows := Records(Appended(lines, CsvRow(name, id, gender)));
            && FirstWithId(rows, id) == Some(|Records(lines)|)
            && rows[|Records(lines)|] == CsvRow(name, id, gender)
  {
    var rows := Records(Appended(lines, CsvRow(name, id, gender)));
    var n := |Records(lines)|;
    assert rows == Records(lines) + [CsvRow(name, id, gender)];
    FirstWithIdFinds(rows, id, n);
  }

  class SaveData {
    /** The rows of users.csv; a file that does not exist reads like an empty one. */
    var usersCsv: seq<CsvRow>
    /** Listing of static/save_data/<user_id> for every user directory that exists. */
    var userDirs: map<string, seq<DirEntry>>

    predicate Valid()
      reads this
    {
      WellFormed(usersCsv)
    }

    constructor(usersCsv: seq<CsvRow>, userDirs: map<string, seq<DirEntry>>)
      requires WellFormed(usersCsv)
      ensures Valid() && this.usersCsv == usersCsv && this.userDirs == userDirs
    {
      this.usersCsv := usersCsv;
      this.userDirs := userDirs;
    }

    /**
     * save_user_info: refuses an id registered under another name and
     * changes nothing then; otherwise reports the trial number and the
     * gender stored for an existing user, creates the user directory of an
     * unknown id, and appends exactly one row for a new user.
     */
    method SaveUserInfo(name: string, experimentId: string, gender: string)
      returns (ok: bool, trialNumber: Option<int>, previousGender: Option<string>)
      requires Valid()
      modifies this
      ensures Valid()
      ensures var rows := Records(old(usersCsv));
              var m := FirstWithId(rows, experimentId);
              && (m.Some? && rows[m.value].name != name ==>
                    && !ok && trialNumber.None? && previousGender.None?
                    && usersCsv == old(usersCsv) && userDirs == old(userDirs))
              && (!(m.Some? && rows[m.value].name != name) ==>
                    && ok
                    && previousGender == (if m.Some? then Some(rows[m.value].gender) else None)
                    && trialNumber == Some(TrialNumber(old(userDirs), experimentId))
                    && userDirs == (if experimentId in old(userDirs) then old(userDirs)
                                    else old(userDirs)[experimentId := NEW_USER_DIR])
                    && usersCsv == (if m.Some? then old(usersCsv)
                                    else Appended(old(usersCsv), CsvRow(name, experimentId, gender))))
    {
      var existingUser := false;
      var trial := 1;
      previousGender := None;

      var rows := Records(usersCsv);
      var i := 0;
      while i < |rows|
        invariant 0 <= i <= |rows|
        invariant forall j :: 0 <= j < i ==> rows[j].userId != experimentId
      {
        if rows[i].userId == experimentId {
          FirstWithIdFinds(rows, experimentId, i);
          if rows[i].name != name {
            return false, None, None;
          }
          existingUser := true;
          previousGender := Some(rows[i].gender);
          break;
        }
        i := i + 1;
      }

      if experimentId in userDirs {
        trial := CountTrials(userDirs[experimentId]) + 1;
      } else {
        userDirs := userDirs[experimentId := NEW_USER_DIR];
      }

      if !existingUser {
        var row := CsvRow(name, experimentId, gender);
        if usersCsv == [] {
          usersCsv := [HEADER, row];
        } else {
          usersCsv := usersCsv + [row];
        }
      }
      return true, Some(trial), previousGender;
    }
  }
}
