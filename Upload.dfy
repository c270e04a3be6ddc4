/** The file-name gate every upload passes (`allowed_file`, app.py). */
module Upload {
  import opened Base
  import opened PyText

  /** `ALLOWED_EXTENSIONS` */
  const AllowedExtensions: set<string> := {"png", "jpg", "jpeg", "gif", "csv", "xlsx"}

  /** The position of the last '.' in `name`, if there is one. */
  function LastDot(name: string): (r: Option<nat>)
    ensures r.Some? ==> r.value < |name| && name[r.value] == '.'
    ensures r.Some? ==> forall j :: r.value < j < |name| ==> name[j] != '.'
    ensures r.None? ==> forall j :: 0 <= j < |name| ==> name[j] != '.'
  {
    if name == [] then None
    else if name[|name| - 1] == '.' then Some(|name| - 1)
    else LastDot(name[..|name| - 1])
  }

  /** `filename.rsplit('.', 1)[1]` for a name that holds a '.'. */
  function AfterLastDot(name: string): string
    requires '.' in name
  {
    var i := LastDot(name);
    assert i.Some? by {
      var k :| 0 <= k < |name| && name[k] == '.';
    }
    name[i.value + 1..]
  }

  /** `allowed_file(filename)` */
  function AllowedFile(name: string): bool {
    '.' in name && LowerAscii(AfterLastDot(name)) in AllowedExtensions
  }

  /** Position `i` of `name` holds a '.' that no later '.' follows, and the text after it is,
      ignoring case, one of png, jpg, jpeg, gif, csv and xlsx. */
  predicate AcceptedDotAt(name: string, i: int) {
    0 <= i < |name| && name[i] == '.' && (forall j :: i < j < |name| ==> name[j] != '.')
    && LowerAscii(name[i + 1..]) in AllowedExtensions
  }

  /** A name is accepted exactly when it has a last '.' followed by an allowed extension. */
  lemma AllowedFileIff(name: string)
    ensures AllowedFile(name) <==> exists i :: AcceptedDotAt(name, i)
  {
    if AllowedFile(name) {
      var i := LastDot(name).value;
      assert AcceptedDotAt(name, i);
    }
    if exists i :: AcceptedDotAt(name, i) {
      var i :| AcceptedDotAt(name, i);
      LastDotAt(name, i);
    }
  }

  /** A dot with no dot after it is the last dot. */
  lemma LastDotAt(name: string, i: nat)
    requires i < |name| && name[i] == '.'
    requires forall j :: i < j < |name| ==> name[j] != '.'
    ensures '.' in name && LastDot(name) == Some(i) && AfterLastDot(name) == name[i + 1..]
  {
    assert '.' in name by { assert name[i] == '.'; }
    var l := LastDot(name);
    assert l.Some?;
  }

  /** A spreadsheet name in upper case passes. */
  lemma AllowedUpperCaseSpreadsheet()
    ensures AllowedFile("Q.XLSX")
  {
    var name := "Q.XLSX";
    assert name[1] == '.' && name[2] != '.' && name[3] != '.' && name[4] != '.' && name[5] != '.';
    assert name[2..] == "XLSX";
    assert LowerAscii("XLSX") == "xlsx";
  }

  /** Only the part after the last dot counts. */
  lemma LastPartDecides()
    ensures !AllowedFile("q.csv.txt")
  {
    var name := "q.csv.txt";
    assert name[5] == '.' && name[6] != '.' && name[7] != '.' && name[8] != '.';
    assert name[6..] == "txt";
    assert LowerAscii("txt") == "txt";
  }
}
