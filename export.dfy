/** The two name rules of export_to_excel: the output file name gets a
    ".xlsx" suffix unless it has one, and every block name is turned into
    a sheet name without the characters spreadsheets forbid, cut to 31. */
module Export {
  import opened Strings

  /** The characters a sheet name may not contain. */
  const Forbidden: set<char> := {'[', ']', ':', '*', '?', '/', '\\'}

  /** The longest sheet name allowed. */
  const MaxSheetName: nat := 31

  /** The sheet name of a block: the forbidden characters removed, then
      cut to its first 31 characters. */
  function SheetName(name: string): (r: string)
    ensures |r| <= MaxSheetName
    ensures forall i :: 0 <= i < |r| ==> r[i] !in Forbidden
    ensures |r| == if |RemoveChars(name, Forbidden)| < MaxSheetName then |RemoveChars(name, Forbidden)| else MaxSheetName
    ensures r == RemoveChars(name, Forbidden)[..|r|]
    ensures (forall i :: 0 <= i < |name| ==> name[i] !in Forbidden) && |name| <= MaxSheetName ==> r == name
  {
    var clean := RemoveChars(name, Forbidden);
    if |clean| <= MaxSheetName then clean else clean[..MaxSheetName]
  }

  /** A sheet name is its own sheet name. */
  lemma SheetNameIdempotent(name: string)
    ensures SheetName(SheetName(name)) == SheetName(name)
  {
  }

  /** Different block names can share a sheet name: "A:B" and "AB". */
  lemma SheetNamesCollide()
    ensures "A:B" != "AB" && SheetName("A:B") == SheetName("AB")
  {
    assert "A:B"[1..] == ":B";
    assert ":B"[1..] == "B";
    assert "AB"[1..] == "B";
  }

  predicate EndsWith(s: string, suffix: string) {
    |suffix| <= |s| && s[|s| - |suffix|..] == suffix
  }

  /** The file name entered at the prompt, stripped, with ".xlsx" added
      unless it already ends so. */
  function OutputFileName(entered: string): (r: string)
    ensures EndsWith(r, ".xlsx")
    ensures Trimmed(r)
    ensures |Strip(entered)| <= |r| && r[..|Strip(entered)|] == Strip(entered)
    ensures r == Strip(entered) <==> EndsWith(Strip(entered), ".xlsx")
  {
    var name := Strip(entered);
    if EndsWith(name, ".xlsx") then name
    else
      var r := name + ".xlsx";
      assert r[..|name|] == name;
      assert r[|r| - 5..] == ".xlsx";
      assert r[|r| - 1] == 'x';
      assert name != [] ==> r[0] == name[0];
      r
  }

  /** Entering the name the prompt produced gives the same name again. */
  lemma OutputFileNameIdempotent(entered: string)
    ensures OutputFileName(OutputFileName(entered)) == OutputFileName(entered)
  {
  }
}
