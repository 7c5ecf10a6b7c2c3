/** The id by which the state tool finds an item, and the one that the checker reads. */
module ItemIds {
  import opened Options
  import opened ItemText
  import opened ItemRoundTrip
  import opened ItemHistory
  import opened ItemSpills
  import opened Lanes
  import opened LaneRuns

  /** The id is stated once, on its line, and it is the first that the tool finds. */
  ghost predicate CleanId(lines: Text, row: nat) {
    && OnlyKeyRow(lines, "id", row)
    && FindRow(lines, "id", 0) == Some(row)
    && MetaEntry(lines[row]).value.value != ""
  }

  lemma StripBehind(s: string, from: nat)
    requires from <= |s|
    ensures Strip(s[SkipBlanks(s, from)..]) == Strip(s[from..])
    decreases |s| - from
  {
    if from < |s| && Blank(s[from]) {
      StripBehind(s, from + 1);
      assert s[from..][1..] == s[from + 1..] && s[from..][0] == s[from];
    }
  }

  /** The tool and the checker read the same id. */
  lemma IdsAgree(lines: Text, row: nat)
    requires CleanId(lines, row)
    ensures ItemId(lines) == IdOf(lines) == MetaEntry(lines[row]).value.value
  {
    SpotOnLine(lines, row, "id");
    StripBehind(lines[row], KeyEnd(lines[row]));
    CollectOnly(MetaEntry, lines, row);
  }

  // ---------------------------------------------------------------- the update

  /** What stands on a row reads the same for every key but the status. */
  ghost predicate SameBut(a: string, b: string) {
    || a == b
    || (STATUS_KEY <= a && STATUS_KEY <= b)
    || (IsKeyLine(a, "status") && IsKeyLine(b, "status"))
  }

  ghost predicate SameButStatus(a: Text, b: Text, row: nat) {
    && row < |a| && row < |b|
    && BehindDash(a[row]).Some? && BehindDash(b[row]).Some?
    && forall i | 0 <= i < row :: SameBut(a[i], b[i])
  }

  lemma StatusLineAhead(lines: Text, key: string, row: nat)
    requires row < |lines| && IsKeyLine(lines[row], "status")
    ensures var spot := AfterBlanks(lines, Spot(row, 0)); !HasKeyAt(lines[spot.row], spot.col, key)
    ensures key != "status" ==> ValueSpot(lines, key, row).None?
  {
    KeyLineHead(lines[row]);
    AfterBlanksOnLine(lines, Spot(row, 0));
    KeyLineHasKey(lines[row], "status");
    TickOnLine(lines, row);
  }

  lemma {:induction false} AheadSame(a: Text, b: Text, key: string, spot: Spot, row: nat)
    requires SameButStatus(a, b, row)
    requires spot.row < row && spot.col <= |a[spot.row]| && a[spot.row] == b[spot.row]
    ensures var x, y := AfterBlanks(a, spot), AfterBlanks(b, spot);
            HasKeyAt(a[x.row], x.col, key) <==> HasKeyAt(b[y.row], y.col, key)
    decreases row - spot.row
  {
    var next := spot.row + 1;
    if SkipBlanks(a[spot.row], spot.col) == |a[spot.row]| {
      if next == row {
        DashLineHead(a[row]);
        DashLineHead(b[row]);
        AfterBlanksOnLine(a, Spot(row, 0));
        AfterBlanksOnLine(b, Spot(row, 0));
      } else if a[next] == b[next] {
        AheadSame(a, b, key, Spot(next, 0), row);
      } else if STATUS_KEY <= a[next] && STATUS_KEY <= b[next] {
        FieldAhead(a, key, next);
        FieldAhead(b, key, next);
      } else {
        StatusLineAhead(a, key, next);
        StatusLineAhead(b, key, next);
      }
    }
  }

  lemma NoIdStays(a: Text, b: Text, i: nat, row: nat)
    requires SameButStatus(a, b, row) && i < row
    requires ValueSpot(a, "id", i).None?
    ensures ValueSpot(b, "id", i).None?
  {
    if a[i] == b[i] {
      if BehindDash(a[i]).Some? {
        AheadSame(a, b, "id", Spot(i, BehindDash(a[i]).value), row);
      }
    } else if STATUS_KEY <= b[i] {
      FieldLineIsNoEntry(b[i]);
    } else {
      StatusLineAhead(b, "id", i);
    }
  }

  lemma FirstIdStays(a: Text, b: Text, row: nat)
    requires SameButStatus(a, b, row)
    requires FindRow(a, "id", 0) == Some(row) && IsKeyLine(b[row], "id")
    ensures FindRow(b, "id", 0) == Some(row)
  {
    SpotOfKeyLine(b, row, "id");
    forall i | 0 <= i < row ensures ValueSpot(b, "id", i).None? {
      FindRowFirst(a, "id", 0, row, i);
      NoIdStays(a, b, i, row);
    }
    FindRowHit(b, "id", 0, row);
  }

  lemma UpdatedRow(lines: Text, updated: Text, lane: string, row: nat, i: nat)
    requires CleanAt(lines, row) && IsUpdated(lines, updated, lane, row) && i < |lines|
    ensures SameBut(lines[i], updated[i])
  {
  }

  lemma SameButKeepsId(a: string, b: string)
    requires SameBut(a, b)
    ensures IsKeyLine(a, "id") <==> IsKeyLine(b, "id")
    ensures IsKeyLine(a, "id") ==> a == b
  {
    if STATUS_KEY <= a && STATUS_KEY <= b {
      FieldLineIsNoEntry(a);
      FieldLineIsNoEntry(b);
    } else if IsKeyLine(a, "status") && IsKeyLine(b, "status") {
      OtherKey(a, "status", "id");
      OtherKey(b, "status", "id");
    }
  }

  lemma UpdateKeepsId(lines: Text, lane: string, row: nat, id: nat)
    requires CleanAt(lines, row) && IsWord(lane) && CleanId(lines, id)
    ensures UpdateStatus(lines, lane).Some?
    ensures CleanId(UpdateStatus(lines, lane).value, id) && UpdateStatus(lines, lane).value[id] == lines[id]
  {
    UpdateIsUpdated(lines, lane, row);
    var updated := UpdateStatus(lines, lane).value;
    forall i | 0 <= i < |lines|
      ensures SameBut(lines[i], updated[i])
      ensures IsKeyLine(lines[i], "id") <==> IsKeyLine(updated[i], "id")
      ensures IsKeyLine(lines[i], "id") ==> lines[i] == updated[i] {
      UpdatedRow(lines, updated, lane, row, i);
      SameButKeepsId(lines[i], updated[i]);
    }
    FirstIdStays(lines, updated, id);
  }

  // ---------------------------------------------------------------- the note

  lemma AppendKeepsId(lines: Text, now: string, note: string, id: nat)
    requires CleanId(lines, id)
    requires '\n' !in note && now != "id" && IsKeyLine(note, now)
    ensures CleanId(AppendNote(lines, note), id)
    ensures MetaEntry(AppendNote(lines, note)[id]) == MetaEntry(lines[id])
  {
    var next := AppendNote(lines, note);
    AppendedExtends(lines, note, now, "id", id);
    ExtendsKeyRow(lines, next, "id", id);
    EntryTrimmed(lines[id], next[id]);
  }

  // ---------------------------------------------------------------- the move

  /** A move keeps the id by which the tool finds the item, and it is the one that the checker reads. */
  lemma NewTextKeepsId(text: Text, q: Request, id: nat)
    requires GoodText(text, q.from) && IsPlain(q) && CleanId(text, id)
    ensures NewText(text, q).Some?
    ensures CleanId(NewText(text, q).value, id)
    ensures ItemId(NewText(text, q).value) == IdOf(NewText(text, q).value) == ItemId(text) == IdOf(text)
  {
    var row :| CleanAt(text, row);
    LaneWords(q.to);
    UpdateKeepsId(text, LaneName(q.to), row, id);
    IdsAgree(text, id);
    var updated := UpdateStatus(text, LaneName(q.to)).value;
    if q.history {
      NoteIsOneLine(q);
      var rest := NoteShape(q.now, LaneName(q.from), LaneName(q.to), q.actor, q.reason);
      NoteIsEntry(q.now, rest);
      AppendKeepsId(updated, q.now, Note(q.now, LaneName(q.from), LaneName(q.to), q.actor, q.reason), id);
    }
    IdsAgree(NewText(text, q).value, id);
  }
}
