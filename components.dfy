/**
 * The pure helpers of the UI components (src/components.tsx): the file-type badge of an
 * artifact and the list maintenance of the chip input used for a step's tools.
 */
module Components {
  import opened Ordering
  import opened Records
  import opened Text

  /* ---------------- Artifact badge ---------------- */

  /** The badge text of an artifact: the upper-cased extension of its name when that is 1 to 5
      UTF-16 code units long, else the upper-cased subtype of its MIME type, else `FILE`. */
  function ExtFrom(a: ArtifactRow): string
  {
    var byName := LastPiece(a.name, '.');
    if byName != "" && Utf16Length(byName) <= 5 then ToUpper(byName)
    else
      var mime := LastPiece(a.mimeType, '/');
      ToUpper(if mime != "" then mime else "FILE")
  }

  /** An extension of 1 to 5 UTF-16 code units names the badge. */
  lemma ExtFromByName(a: ArtifactRow, ext: string)
    requires IsTextAfterLast(ext, a.name, '.') && 0 < |ext| && Utf16Length(ext) <= 5
    ensures ExtFrom(a) == ToUpper(ext)
  {
    LastPieceIsTextAfterLast(a.name, '.');
    TextAfterLastUnique(LastPiece(a.name, '.'), ext, a.name, '.');
  }

  /** Otherwise the MIME subtype names it. */
  lemma ExtFromByMime(a: ArtifactRow, ext: string, subtype: string)
    requires IsTextAfterLast(ext, a.name, '.') && !(0 < |ext| && Utf16Length(ext) <= 5)
    requires IsTextAfterLast(subtype, a.mimeType, '/') && subtype != ""
    ensures ExtFrom(a) == ToUpper(subtype)
  {
    LastPieceIsTextAfterLast(a.name, '.');
    TextAfterLastUnique(LastPiece(a.name, '.'), ext, a.name, '.');
    LastPieceIsTextAfterLast(a.mimeType, '/');
    TextAfterLastUnique(LastPiece(a.mimeType, '/'), subtype, a.mimeType, '/');
  }

  /** With neither, the badge reads `FILE`. */
  lemma ExtFromFallback(a: ArtifactRow, ext: string)
    requires IsTextAfterLast(ext, a.name, '.') && !(0 < |ext| && Utf16Length(ext) <= 5)
    requires IsTextAfterLast("", a.mimeType, '/')
    ensures ExtFrom(a) == "FILE"
  {
    LastPieceIsTextAfterLast(a.name, '.');
    TextAfterLastUnique(LastPiece(a.name, '.'), ext, a.name, '.');
    LastPieceIsTextAfterLast(a.mimeType, '/');
    TextAfterLastUnique(LastPiece(a.mimeType, '/'), "", a.mimeType, '/');
    UpperFile();
  }

  /** `FILE` is already upper case. */
  lemma UpperFile()
    ensures ToUpper("FILE") == "FILE"
  {
    var f := ToUpper("FILE");
    assert f[0] == 'F' && f[1] == 'I' && f[2] == 'L' && f[3] == 'E';
  }

  /** Three characters outside the Basic Multilingual Plane are six UTF-16 code units, too
      many for the name badge, so such an extension gives way to the MIME subtype. */
  lemma AstralExtensionTooLong(a: ArtifactRow)
    requires a.name == "x.\U{1F600}\U{1F600}\U{1F600}" && a.mimeType == "image/png"
    ensures ExtFrom(a) == "PNG"
  {
    var ext := "\U{1F600}\U{1F600}\U{1F600}";
    AstralName(a.name, ext);
    PngSubtype(a.mimeType);
    ExtFromByMime(a, ext, "png");
    UpperPng();
  }

  lemma AstralName(name: string, ext: string)
    requires name == "x.\U{1F600}\U{1F600}\U{1F600}" && ext == "\U{1F600}\U{1F600}\U{1F600}"
    ensures IsTextAfterLast(ext, name, '.') && Utf16Length(ext) == 6
  {
    assert |name| == 5 && name[1] == '.' && name[2..] == ext;
  }

  lemma PngSubtype(mime: string)
    requires mime == "image/png"
    ensures IsTextAfterLast("png", mime, '/')
  {
    assert |mime| == 9 && mime[5] == '/' && mime[6..] == "png";
  }

  lemma UpperPng()
    ensures ToUpper("png") == "PNG"
  {
    var u := ToUpper("png");
    assert u[0] == 'P' && u[1] == 'N' && u[2] == 'G';
  }

  /** A short name without a dot is its own extension. */
  lemma DotlessNameIsExtension(a: ArtifactRow)
    requires '.' !in a.name && 0 < |a.name| && Utf16Length(a.name) <= 5
    ensures ExtFrom(a) == ToUpper(a.name)
  {
    LastPieceIsTextAfterLast(a.name, '.');
    TextAfterLastUnique(LastPiece(a.name, '.'), a.name, a.name, '.');
  }

  /** The classes Tailwind is told to keep even though they are built at run time, in
      background/text pairs. */
  const SAFELIST: seq<string> := [
    "bg-red-100", "text-red-700",
    "bg-purple-100", "text-purple-700",
    "bg-emerald-100", "text-emerald-700",
    "bg-slate-100", "text-slate-700",
    "bg-blue-100", "text-blue-700", "bg-amber-100", "text-amber-700"]

  /** badgeColor: the classes of the badge for an extension, as the list of the class names in
      its `className` string. */
  function BadgeColor(ext: string): (classes: seq<string>)
    ensures |classes| == 2
  {
    match ext
    case "PDF" => ["bg-red-100", "text-red-700"]
    case "PNG" | "JPG" | "JPEG" | "GIF" => ["bg-purple-100", "text-purple-700"]
    case "CSV" | "XLS" | "XLSX" => ["bg-emerald-100", "text-emerald-700"]
    case "DOC" | "DOCX" | "PPT" | "PPTX" => ["bg-blue-100", "text-blue-700"]
    case "ZIP" | "RAR" => ["bg-amber-100", "text-amber-700"]
    case _ => ["bg-slate-100", "text-slate-700"]
  }

  /** The k-th background/text pair of the safelist. */
  function SafelistPair(k: nat): seq<string>
    requires k < |SAFELIST| / 2
  {
    SAFELIST[2 * k..2 * k + 2]
  }

  /** Every badge is one background/text pair of the safelist, so no badge class is purged. */
  lemma BadgeColorSafelisted(ext: string)
    ensures exists k :: 0 <= k < |SAFELIST| / 2 && BadgeColor(ext) == SafelistPair(k)
  {
    var c := BadgeColor(ext);
    assert SafelistPair(0) == ["bg-red-100", "text-red-700"];
    assert SafelistPair(1) == ["bg-purple-100", "text-purple-700"];
    assert SafelistPair(2) == ["bg-emerald-100", "text-emerald-700"];
    assert SafelistPair(3) == ["bg-slate-100", "text-slate-700"];
    assert SafelistPair(4) == ["bg-blue-100", "text-blue-700"];
    assert SafelistPair(5) == ["bg-amber-100", "text-amber-700"];
    match ext
    case "PDF" => assert c == SafelistPair(0);
    case "PNG" | "JPG" | "JPEG" | "GIF" => assert c == SafelistPair(1);
    case "CSV" | "XLS" | "XLSX" => assert c == SafelistPair(2);
    case "DOC" | "DOCX" | "PPT" | "PPTX" => assert c == SafelistPair(4);
    case "ZIP" | "RAR" => assert c == SafelistPair(5);
    case _ => assert c == SafelistPair(3);
  }

  /* ---------------- Chip input ---------------- */

  /** addChip: adds the trimmed value at the end unless it is blank or already present. */
  function AddChip(values: seq<string>, v: string): (r: seq<string>)
    ensures Trim(v) == "" || Trim(v) in values ==> r == values
    ensures Trim(v) != "" && Trim(v) !in values ==> r == values + [Trim(v)]
    ensures NoDup(values) ==> NoDup(r)
  {
    var t := Trim(v);
    if t == "" then values
    else if t in values then values
    else values + [t]
  }

  /** Adding the same value twice is the same as adding it once. */
  lemma AddChipIdempotent(values: seq<string>, v: string)
    ensures AddChip(AddChip(values, v), v) == AddChip(values, v)
  {
  }

  /** The chips a list of typed pieces stands for: each piece trimmed, blank ones dropped. */
  function TrimmedChips(parts: seq<string>): set<string>
    decreases |parts|
  {
    if parts == [] then {}
    else (if Trim(parts[0]) == "" then {} else {Trim(parts[0])}) + TrimmedChips(parts[1..])
  }

  /** The trimmed pieces that are neither blank nor among `values`, in typing order; a piece typed
      twice is there twice. */
  function NewPieces(values: seq<string>, parts: seq<string>): seq<string>
    decreases |parts|
  {
    if parts == [] then []
    else
      var t := Trim(parts[0]);
      (if t == "" || t in values then [] else [t]) + NewPieces(values, parts[1..])
  }

  /** The new pieces are exactly the pieces' chips that are not chips yet. */
  lemma {:induction false} NewPiecesSpec(values: seq<string>, parts: seq<string>)
    ensures |NewPieces(values, parts)| <= |parts|
    ensures forall x :: x in NewPieces(values, parts) <==> x !in values && x in TrimmedChips(parts)
    decreases |parts|
  {
    if parts != [] {
      NewPiecesSpec(values, parts[1..]);
    }
  }

  /** addMany: addChip for each piece. Every call reads the chips the input was rendered with, so
      each piece that is new to them hands `onChange` those chips plus that piece alone. These
      are the lists handed to `onChange`, in order. */
  function AddManyCalls(values: seq<string>, parts: seq<string>): seq<seq<string>>
    decreases |parts|
  {
    if parts == [] then []
    else
      var t := Trim(parts[0]);
      (if t == "" || t in values then [] else [values + [t]]) + AddManyCalls(values, parts[1..])
  }

  /** addMany makes one call per new piece, handing over the old chips plus that piece. */
  lemma {:induction false} AddManyCallsSpec(values: seq<string>, parts: seq<string>)
    ensures |AddManyCalls(values, parts)| == |NewPieces(values, parts)|
    ensures forall k :: 0 <= k < |AddManyCalls(values, parts)| ==>
      AddManyCalls(values, parts)[k] == values + [NewPieces(values, parts)[k]]
    decreases |parts|
  {
    if parts != [] {
      AddManyCallsSpec(values, parts[1..]);
    }
  }

  /** The chips after addMany, once the owner has stored what it was handed: the last call's
      list wins, and the chips stay as they were when no call was made. */
  function AddMany(values: seq<string>, parts: seq<string>): seq<string>
  {
    var calls := AddManyCalls(values, parts);
    if calls == [] then values else calls[|calls| - 1]
  }

  /** addMany keeps the existing chips first and in order, adds at most the last new piece, and
      introduces no duplicate. */
  lemma AddManyKeepsChips(values: seq<string>, parts: seq<string>)
    requires NoDup(values)
    ensures var added := NewPieces(values, parts);
      && (added == [] ==> AddMany(values, parts) == values)
      && (added != [] ==> AddMany(values, parts) == values + [added[|added| - 1]])
    ensures NoDup(AddMany(values, parts))
  {
    AddManyCallsSpec(values, parts);
    NewPiecesSpec(values, parts);
    var added := NewPieces(values, parts);
    if added != [] {
      assert added[|added| - 1] in added;
      var r := values + [added[|added| - 1]];
      assert forall a, b :: 0 <= a < b < |r| ==> r[a] != r[b] by {
        forall a, b | 0 <= a < b < |r| ensures r[a] != r[b] {
          if b == |values| {
            assert r[a] in values;
          }
        }
      }
    }
  }

  /** Pasting two different new tools at once hands `onChange` each alone, so only the second
      is kept. */
  lemma PastedPiecesKeepOnlyLast(x: string, y: string)
    requires Trim(x) != "" && Trim(y) != "" && Trim(x) != Trim(y)
    ensures AddManyCalls([], [x, y]) == [[Trim(x)], [Trim(y)]]
    ensures AddMany([], [x, y]) == [Trim(y)]
  {
    var none: seq<string> := [];
    var parts := [x, y];
    assert parts[0] == x && parts[1..] == [y] && [y][0] == y && [y][1..] == [];
    assert none + [Trim(x)] == [Trim(x)] && none + [Trim(y)] == [Trim(y)];
    var cy := AddManyCalls(none, [y]);
    assert cy == [[Trim(y)]] + AddManyCalls(none, []);
    assert cy == [[Trim(y)]];
    var c := AddManyCalls(none, parts);
    assert c == [[Trim(x)]] + cy;
  }

  /** addMany as evidently intended: each addChip sees the chips the previous one left. */
  function AddManyInOrder(values: seq<string>, parts: seq<string>): seq<string>
    decreases |parts|
  {
    if parts == [] then values else AddManyInOrder(AddChip(values, parts[0]), parts[1..])
  }

  /** The intended addMany keeps the existing chips first and in order, and introduces no
      duplicate. */
  lemma {:induction false} AddManyInOrderKeepsChips(values: seq<string>, parts: seq<string>)
    requires NoDup(values)
    ensures |values| <= |AddManyInOrder(values, parts)|
    ensures AddManyInOrder(values, parts)[..|values|] == values
    ensures NoDup(AddManyInOrder(values, parts))
    decreases |parts|
  {
    if parts != [] {
      var v1 := AddChip(values, parts[0]);
      AddManyInOrderKeepsChips(v1, parts[1..]);
      var r := AddManyInOrder(values, parts);
      assert r[..|v1|] == v1;
      assert r[..|values|] == v1[..|values|];
    }
  }

  /** With the intended addMany, the chips are exactly the old chips and every piece's chip. */
  lemma {:induction false} AddManyInOrderChips(values: seq<string>, parts: seq<string>)
    ensures forall x :: x in AddManyInOrder(values, parts) <==> x in values || x in TrimmedChips(parts)
    decreases |parts|
  {
    if parts != [] {
      AddManyInOrderChips(AddChip(values, parts[0]), parts[1..]);
    }
  }

  /** With the intended addMany, pasting two different new tools at once keeps both, in order. */
  lemma PastedPiecesAllKept(x: string, y: string)
    requires Trim(x) != "" && Trim(y) != "" && Trim(x) != Trim(y)
    ensures AddManyInOrder([], [x, y]) == [Trim(x), Trim(y)]
  {
    var none: seq<string> := [];
    var parts := [x, y];
    assert parts[0] == x && parts[1..] == [y] && [y][0] == y && [y][1..] == [];
    assert AddChip(none, x) == [Trim(x)];
    assert AddChip([Trim(x)], y) == [Trim(x), Trim(y)];
    assert AddManyInOrder([Trim(x), Trim(y)], []) == [Trim(x), Trim(y)];
  }

  /** Chip removal: `values.filter(x => x !== v)`. */
  function RemoveChip(values: seq<string>, v: string): (r: seq<string>)
    ensures |r| <= |values|
    ensures forall x :: x in r <==> x in values && x != v
    decreases |values|
  {
    if values == [] then []
    else if values[0] == v then RemoveChip(values[1..], v)
    else [values[0]] + RemoveChip(values[1..], v)
  }

  /** Removal works element by element, so the chips that stay keep their order. */
  lemma {:induction false} RemoveChipDistributes(a: seq<string>, b: seq<string>, v: string)
    ensures RemoveChip(a + b, v) == RemoveChip(a, v) + RemoveChip(b, v)
    decreases |a|
  {
    if a == [] {
      assert a + b == b;
    } else {
      assert (a + b)[0] == a[0] && (a + b)[1..] == a[1..] + b;
      RemoveChipDistributes(a[1..], b, v);
    }
  }

  /** Removing a value that is not a chip changes nothing. */
  lemma {:induction false} RemoveAbsentChip(values: seq<string>, v: string)
    requires v !in values
    ensures RemoveChip(values, v) == values
    decreases |values|
  {
    if values != [] {
      RemoveAbsentChip(values[1..], v);
    }
  }

  /** Removing a chip just added undoes the addition. */
  lemma RemoveUndoesAdd(values: seq<string>, v: string)
    requires Trim(v) != "" && Trim(v) !in values
    ensures RemoveChip(AddChip(values, v), Trim(v)) == values
  {
    RemoveChipDistributes(values, [Trim(v)], Trim(v));
    RemoveAbsentChip(values, Trim(v));
    assert RemoveChip([Trim(v)], Trim(v)) == [];
  }

  /** The chip input: the chips and the text being typed. */
  datatype ChipState = ChipState(values: seq<string>, input: string)

  /** Typing: text with a comma is split on commas; every piece but the last becomes a chip and
      the last stays as the pending input. */
  function OnChange(st: ChipState, typed: string): (r: ChipState)
    ensures ',' !in typed ==> r == st.(input := typed)
    ensures ',' in typed ==> ',' !in r.input && IsTextAfterLast(r.input, typed, ',')
    ensures ',' in typed ==> r.values == AddMany(st.values, Split(typed, ',')[..|Split(typed, ',')| - 1])
  {
    if ',' in typed then
      var parts := Split(typed, ',');
      LastPieceIsTextAfterLast(typed, ',');
      ChipState(AddMany(st.values, parts[..|parts| - 1]), parts[|parts| - 1])
    else ChipState(st.values, typed)
  }

  /** The lists typed text makes the input hand `onChange`: one per new piece before the last
      comma, none without a comma. */
  function ChangeCalls(values: seq<string>, typed: string): seq<seq<string>>
  {
    if ',' in typed then
      var parts := Split(typed, ',');
      AddManyCalls(values, parts[..|parts| - 1])
    else []
  }

  /** The chips typing shows are those of the last list handed to `onChange`, or the old chips
      when none was; the pending text is the text after the last comma. */
  lemma ChangeCallsShown(values: seq<string>, typed: string)
    ensures var st := OnChange(ChipState(values, ""), typed);
      var calls := ChangeCalls(values, typed);
      && st.input == (if ',' in typed then LastPiece(typed, ',') else typed)
      && st.values == (if calls == [] then values else calls[|calls| - 1])
  {
    if ',' in typed {
      var parts := Split(typed, ',');
      var calls := AddManyCalls(values, parts[..|parts| - 1]);
      assert ChangeCalls(values, typed) == calls;
      assert OnChange(ChipState(values, ""), typed)
        == ChipState(AddMany(values, parts[..|parts| - 1]), LastPiece(typed, ','));
    }
  }

  /** Enter or `,`: the pending text is added as a chip and the input is cleared. */
  function OnCommit(st: ChipState): (r: ChipState)
    ensures r.input == "" && r.values == AddChip(st.values, st.input)
  {
    ChipState(AddChip(st.values, st.input), "")
  }

  /** showPlaceholder: no chips and nothing but white space typed. */
  function ShowPlaceholder(st: ChipState): bool
  {
    |st.values| == 0 && |Trim(st.input)| == 0
  }

  lemma ShowPlaceholderSpec(st: ChipState)
    ensures ShowPlaceholder(st) <==> st.values == [] && IsBlank(st.input)
  {
    TrimEmptyIffBlank(st.input);
  }
}
