/** The `initials` pipe: up to two capital letters taken from a name's first and last space-separated parts. */
module InitialsPipe {
  import opened Wrappers
  import opened Text

  /**
   * `transform`: an empty or missing name gives ''; otherwise the name is
   * split at each space, the first part's first letter is added when that
   * part is not empty, then, when there are several parts, the last part's
   * first letter when that part is not empty. Letters are upper-cased.
   */
  method Transform(name: Option<string>) returns (initials: string)
    ensures name.None? || name == Some("") ==> initials == ""
    ensures |initials| <= 2
    ensures name.Some? && name.value != "" && name.value[0] != ' ' ==>
      |initials| >= 1 && initials[0] == UpperChar(name.value[0])
    ensures name.Some? && name.value != "" && ' ' !in name.value ==> |initials| == 1
    ensures name.Some? && name.value != "" && name.value[0] == ' ' ==> |initials| <= 1
    ensures name.Some? && name.value != "" ==>
      var parts := Split(name.value, ' ');
      |parts| > 1 && parts[|parts| - 1] != "" ==>
        |initials| >= 1 && initials[|initials| - 1] == UpperChar(parts[|parts| - 1][0])
    ensures name.Some? && name.value != "" && name.value[|name.value| - 1] == ' ' ==>
      |initials| <= 1
    ensures name.Some? && name.value != "" ==>
      (|initials| == 2 <==> name.value[0] != ' ' && ' ' in name.value && name.value[|name.value| - 1] != ' ')
  {
    if name.None? || name.value == "" {
      return "";
    }
    var s := name.value;
    var parts := Split(s, ' ');
    SplitFirstPiece(s, ' ');
    SplitSeveralPieces(s, ' ');
    SplitLastPiece(s, ' ');
    initials := "";
    if parts[0] != "" {
      initials := initials + [UpperChar(parts[0][0])];
    }
    if |parts| > 1 && parts[|parts| - 1] != "" {
      initials := initials + [UpperChar(parts[|parts| - 1][0])];
    }
  }
}
