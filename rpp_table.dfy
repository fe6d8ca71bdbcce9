/**
 * The RPP table's search: a row of the fixed sample data is shown when the
 * lower-cased query occurs in the lower-cased text `subject teacher year`. The
 * phase and the date are shown but never searched.
 */
module RppTable {
  import Text
  import Seqs

  datatype Row = Row(subject: string, teacher: string, phase: string, year: string, date: string)

  const MockData: seq<Row> := [
    Row("Matematika", "James Mullican", "D(Kelas VIII)", "Ganjil 2024/2025", "10 Dec, 2020"),
    Row("Bahasa Indonesia", "Siti Nurhaliza", "C(Kelas VII)", "Genap 2023/2024", "22 Jan, 2024"),
    Row("IPA", "Agus Santoso", "D(Kelas VIII)", "Ganjil 2024/2025", "03 Mar, 2024"),
    Row("IPS", "Rina Marlina", "E(Kelas IX)", "Genap 2023/2024", "15 Apr, 2024"),
    Row("Pendidikan Pancasila", "Dedi Gunawan", "C(Kelas VII)", "Ganjil 2024/2025", "18 Feb, 2023")
  ]

  /** `${row.subject} ${row.teacher} ${row.year}`. */
  function SearchText(row: Row): string {
    row.subject + " " + row.teacher + " " + row.year
  }

  predicate RowMatches(searchQuery: string, row: Row) {
    Text.Contains(Text.Lower(SearchText(row)), Text.Lower(searchQuery))
  }

  /** The rows of `rows` that the query finds, in their original order. */
  function FilterRows(rows: seq<Row>, searchQuery: string): seq<Row> {
    Seqs.Filter(rows, row => RowMatches(searchQuery, row))
  }

  /** `filteredData` for the query typed into the search box. */
  function FilteredData(searchQuery: string): seq<Row> {
    FilterRows(MockData, searchQuery)
  }

  /**
   * A row is kept exactly when it is one of the rows and its search text contains
   * the query, ignoring case.
   */
  lemma FilterRowsMembership(rows: seq<Row>, searchQuery: string, row: Row)
    ensures row in FilterRows(rows, searchQuery) <==>
      row in rows && Text.ContainsIgnoreCase(SearchText(row), searchQuery)
  {
    Seqs.FilterMembership(rows, row => RowMatches(searchQuery, row), row);
  }

  /** An empty query shows every row. */
  lemma EmptyQueryShowsAll(rows: seq<Row>)
    ensures FilterRows(rows, "") == rows
  {
    forall i | 0 <= i < |rows| ensures RowMatches("", rows[i]) {
      Text.ContainsEmpty(SearchText(rows[i]));
    }
    Seqs.FilterAll(rows, row => RowMatches("", row));
  }

  /** The kept rows keep their order, and searching them again changes nothing. */
  lemma FilterRowsIsStable(rows: seq<Row>, searchQuery: string)
    ensures Seqs.IsSubsequence(FilterRows(rows, searchQuery), rows)
    ensures FilterRows(FilterRows(rows, searchQuery), searchQuery) == FilterRows(rows, searchQuery)
  {
    Seqs.FilterIsSubsequence(rows, row => RowMatches(searchQuery, row));
    Seqs.FilterIdempotent(rows, row => RowMatches(searchQuery, row));
  }

  /** Phase and date play no part in the search. */
  lemma PhaseAndDateNotSearched(searchQuery: string, row: Row, phase: string, date: string)
    ensures RowMatches(searchQuery, row.(phase := phase, date := date)) == RowMatches(searchQuery, row)
  {
    assert SearchText(row.(phase := phase, date := date)) == SearchText(row);
  }

  /**
   * A query may run across the space that joins two fields: subject and teacher
   * together find the row although no single field contains them.
   */
  lemma QuerySpansFields(row: Row)
    requires |row.subject| + 1 + |row.teacher| > |row.year|
    ensures var q := row.subject + " " + row.teacher;
      && RowMatches(q, row)
      && !Text.ContainsIgnoreCase(row.subject, q)
      && !Text.ContainsIgnoreCase(row.teacher, q)
      && !Text.ContainsIgnoreCase(row.year, q)
  {
    var q := row.subject + " " + row.teacher;
    assert SearchText(row) == "" + q + (" " + row.year);
    Text.ContainsSelf(q);
    Text.ContainsIgnoreCaseInfix("", q, " " + row.year, q);
    Text.LongerNeverFound(row.subject, q);
    Text.LongerNeverFound(row.teacher, q);
    Text.LongerNeverFound(row.year, q);
  }

  /** The first sample row is found by "Matematika James Mullican", which no single field holds. */
  lemma FirstRowFoundAcrossFields()
    ensures RowMatches("Matematika James Mullican", MockData[0])
    ensures !Text.ContainsIgnoreCase(MockData[0].subject, "Matematika James Mullican")
    ensures !Text.ContainsIgnoreCase(MockData[0].teacher, "Matematika James Mullican")
    ensures !Text.ContainsIgnoreCase(MockData[0].year, "Matematika James Mullican")
  {
    assert MockData[0].subject + " " + MockData[0].teacher == "Matematika James Mullican";
    QuerySpansFields(MockData[0]);
  }
}
