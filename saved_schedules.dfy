/** The saved-schedule list and the updates the scheduler applies to it: ticking a revision
    day off, deleting a schedule, confirming an edit, and grouping the list by subject for
    display. Every field is kept as the text the form holds. */
module SavedSchedules {
  import opened Wrappers
  import opened Seqs

  /** A confirmed schedule: its identity, the form fields it was computed from, its revision
      days as `toDateString` prints them, and which of those days are done. */
  datatype SavedSchedule = SavedSchedule(
    id: string,
    subject: string,
    topic: string,
    examDate: string,
    startDate: string,
    difficulty: string,
    memoryStrength: string,
    dates: seq<string>,
    completed: map<string, bool>)

  // Completion flags

  /** `!!m[key]`: a day without an entry counts as not done. */
  function Flag(m: map<string, bool>, key: string): bool {
    key in m && m[key]
  }

  /** `{ ...m, [key]: !m[key] }`: flips the flag of one day, giving it an entry if it had none. */
  function Toggle(m: map<string, bool>, key: string): (r: map<string, bool>)
    ensures r.Keys == m.Keys + {key}
    ensures Flag(r, key) == !Flag(m, key)
    ensures forall k :: k != key ==> Flag(r, k) == Flag(m, k)
  {
    m[key := !Flag(m, key)]
  }

  /** Flipping the same day twice restores every flag, and restores the map itself when the
      day already had an entry. */
  lemma ToggleTwice(m: map<string, bool>, key: string)
    ensures forall k :: Flag(Toggle(Toggle(m, key), key), k) == Flag(m, k)
    ensures key in m ==> Toggle(Toggle(m, key), key) == m
  {
    var twice := Toggle(Toggle(m, key), key);
    if key in m {
      assert twice.Keys == m.Keys;
      forall k | k in m ensures twice[k] == m[k] {
        if k != key {
          assert Flag(twice, k) == Flag(m, k);
        }
      }
    }
  }

  /** Whether a source id picks out a saved schedule: JavaScript skips a missing id and the
      empty string alike. */
  predicate Selects(sourceId: Option<string>) {
    sourceId.Some? && sourceId.value != ""
  }

  /** The saved list after the day `dateStr` of the schedule `sourceId` is ticked or
      unticked; every other schedule, and every other field, stays as it was. */
  function ToggleSaved(saved: seq<SavedSchedule>, dateStr: string, sourceId: Option<string>): (r: seq<SavedSchedule>)
    ensures |r| == |saved|
    ensures forall i :: 0 <= i < |saved| && !(Selects(sourceId) && saved[i].id == sourceId.value) ==> r[i] == saved[i]
    ensures forall i :: 0 <= i < |saved| && Selects(sourceId) && saved[i].id == sourceId.value ==>
              r[i] == saved[i].(completed := Toggle(saved[i].completed, dateStr))
  {
    if saved == [] || !Selects(sourceId) then saved
    else
      var s := saved[0];
      var head := if s.id == sourceId.value then s.(completed := Toggle(s.completed, dateStr)) else s;
      [head] + ToggleSaved(saved[1..], dateStr, sourceId)
  }

  /** `toggleCompleted`: flips the day in the flags of the schedule being computed and, when a
      saved schedule is named, in that schedule's flags too. */
  function ToggleCompleted(completedMap: map<string, bool>, saved: seq<SavedSchedule>,
                           dateStr: string, sourceId: Option<string>): (r: (map<string, bool>, seq<SavedSchedule>))
    ensures Flag(r.0, dateStr) == !Flag(completedMap, dateStr)
    ensures !Selects(sourceId) ==> r.1 == saved
  {
    (Toggle(completedMap, dateStr), ToggleSaved(saved, dateStr, sourceId))
  }

  /** Ticking the same day of the same schedule twice leaves every schedule with the flags
      it had. */
  lemma ToggleSavedTwice(saved: seq<SavedSchedule>, dateStr: string, sourceId: Option<string>, i: nat, k: string)
    requires i < |saved|
    ensures var twice := ToggleSaved(ToggleSaved(saved, dateStr, sourceId), dateStr, sourceId);
            && twice[i].(completed := saved[i].completed) == saved[i]
            && Flag(twice[i].completed, k) == Flag(saved[i].completed, k)
  {
    var once := ToggleSaved(saved, dateStr, sourceId);
    if Selects(sourceId) && saved[i].id == sourceId.value {
      assert once[i].id == saved[i].id;
      ToggleTwice(saved[i].completed, dateStr);
    }
  }

  // Deleting

  /** `prev.filter(s => s.id !== scheduleId)`. */
  function DeleteSchedule(saved: seq<SavedSchedule>, scheduleId: string): (r: seq<SavedSchedule>)
    ensures |r| <= |saved|
    ensures forall s :: s in r <==> s in saved && s.id != scheduleId
  {
    if saved == [] then []
    else
      var rest := DeleteSchedule(saved[1..], scheduleId);
      assert forall s :: s in saved <==> s == saved[0] || s in saved[1..];
      if saved[0].id != scheduleId then [saved[0]] + rest else rest
  }

  /** Deleting an id no saved schedule has changes nothing. */
  lemma {:induction false} DeleteAbsent(saved: seq<SavedSchedule>, scheduleId: string)
    requires forall i :: 0 <= i < |saved| ==> saved[i].id != scheduleId
    ensures DeleteSchedule(saved, scheduleId) == saved
  {
    if saved != [] {
      DeleteAbsent(saved[1..], scheduleId);
      assert saved == [saved[0]] + saved[1..];
    }
  }

  /** Deleting keeps the surviving schedules in their order: the survivors of a list with one
      more schedule at its end are the old survivors, followed by that schedule unless it
      has the id. */
  lemma {:induction false} DeleteAppend(saved: seq<SavedSchedule>, s: SavedSchedule, scheduleId: string)
    ensures DeleteSchedule(saved + [s], scheduleId)
         == DeleteSchedule(saved, scheduleId) + (if s.id != scheduleId then [s] else [])
  {
    if saved == [] {
      assert [s][1..] == [];
    } else {
      assert (saved + [s])[1..] == saved[1..] + [s];
      DeleteAppend(saved[1..], s, scheduleId);
    }
  }

  /** Deleting the same id twice is deleting it once. */
  lemma DeleteIdempotent(saved: seq<SavedSchedule>, scheduleId: string)
    ensures DeleteSchedule(DeleteSchedule(saved, scheduleId), scheduleId) == DeleteSchedule(saved, scheduleId)
  {
    var once := DeleteSchedule(saved, scheduleId);
    forall i | 0 <= i < |once| ensures once[i].id != scheduleId {
      assert once[i] in once;
    }
    DeleteAbsent(once, scheduleId);
  }

  // Confirming an edit

  /** The form fields an edit carries over into the saved schedule. */
  datatype EditForm = EditForm(examDate: string, startDate: string, difficulty: string, memoryStrength: string)

  /** One saved schedule with the form's fields, the new revision days and the new flags. */
  function Edited(s: SavedSchedule, form: EditForm, dates: seq<string>, completed: map<string, bool>): SavedSchedule {
    s.(examDate := form.examDate, startDate := form.startDate, difficulty := form.difficulty,
       memoryStrength := form.memoryStrength, dates := dates, completed := completed)
  }

  /** `handleConfirmEdit`: with no computed revision days nothing changes; otherwise the
      schedule being edited takes the form's fields, the new days and the new flags, and
      every other schedule stays as it was. Identity, subject and topic never change. */
  function ConfirmEdit(saved: seq<SavedSchedule>, editingId: Option<string>, form: EditForm,
                       dates: seq<string>, completedMap: map<string, bool>): (r: seq<SavedSchedule>)
    ensures |r| == |saved|
    ensures dates == [] ==> r == saved
  {
    if dates == [] || saved == [] then saved
    else
      var s := saved[0];
      var head := if editingId == Some(s.id) then Edited(s, form, dates, completedMap) else s;
      [head] + ConfirmEdit(saved[1..], editingId, form, dates, completedMap)
  }

  /** After an edit, the schedule being edited holds the form's fields, the new days and the
      new flags, and every other schedule is as it was; identity, subject and topic never
      change. */
  lemma {:induction false} ConfirmEditAt(saved: seq<SavedSchedule>, editingId: Option<string>, form: EditForm,
                                         dates: seq<string>, completedMap: map<string, bool>, i: nat)
    requires i < |saved|
    ensures var r := ConfirmEdit(saved, editingId, form, dates, completedMap);
            && r[i] == (if dates != [] && editingId == Some(saved[i].id) then Edited(saved[i], form, dates, completedMap)
                        else saved[i])
            && r[i].id == saved[i].id && r[i].subject == saved[i].subject && r[i].topic == saved[i].topic
  {
    if dates != [] && i > 0 {
      ConfirmEditAt(saved[1..], editingId, form, dates, completedMap, i - 1);
      assert saved[1..][i - 1] == saved[i];
    }
  }

  /** Confirming the same edit twice is confirming it once. */
  lemma ConfirmEditIdempotent(saved: seq<SavedSchedule>, editingId: Option<string>, form: EditForm,
                              dates: seq<string>, completedMap: map<string, bool>)
    ensures var once := ConfirmEdit(saved, editingId, form, dates, completedMap);
            ConfirmEdit(once, editingId, form, dates, completedMap) == once
  {
    var once := ConfirmEdit(saved, editingId, form, dates, completedMap);
    var twice := ConfirmEdit(once, editingId, form, dates, completedMap);
    forall i | 0 <= i < |saved| ensures twice[i] == once[i] {
      ConfirmEditAt(saved, editingId, form, dates, completedMap, i);
      ConfirmEditAt(once, editingId, form, dates, completedMap, i);
    }
  }

  // Grouping by subject

  /** The subjects of the schedules, in list order. */
  function Subjects(saved: seq<SavedSchedule>): (r: seq<string>)
    ensures |r| == |saved|
    ensures forall i :: 0 <= i < |saved| ==> r[i] == saved[i].subject
  {
    if saved == [] then [] else Subjects(saved[..|saved| - 1]) + [saved[|saved| - 1].subject]
  }

  /** The schedules of one subject, in list order. */
  function OfSubject(saved: seq<SavedSchedule>, subject: string): seq<SavedSchedule> {
    if saved == [] then []
    else
      var last := saved[|saved| - 1];
      OfSubject(saved[..|saved| - 1], subject) + (if last.subject == subject then [last] else [])
  }

  /** A group holds exactly the schedules of its subject. */
  lemma {:induction false} OfSubjectMembers(saved: seq<SavedSchedule>, subject: string)
    ensures forall s :: s in OfSubject(saved, subject) <==> s in saved && s.subject == subject
  {
    if saved != [] {
      var init := saved[..|saved| - 1];
      OfSubjectMembers(init, subject);
      assert saved == init + [saved[|saved| - 1]];
    }
  }

  /** The subjects of a list with one more schedule at its end. */
  lemma SubjectsSnoc(saved: seq<SavedSchedule>, s: SavedSchedule)
    ensures Subjects(saved + [s]) == Subjects(saved) + [s.subject]
  {
    assert (saved + [s])[..|saved|] == saved;
  }

  /** The group of a subject in a list with one more schedule at its end. */
  lemma OfSubjectSnoc(saved: seq<SavedSchedule>, s: SavedSchedule, subject: string)
    ensures OfSubject(saved + [s], subject) == OfSubject(saved, subject) + (if s.subject == subject then [s] else [])
  {
    assert (saved + [s])[..|saved|] == saved;
  }

  /** The distinct subjects of a list with one more schedule at its end. */
  lemma DedupSnoc(xs: seq<string>, x: string)
    ensures Dedup(xs + [x]) == if x in Dedup(xs) then Dedup(xs) else Dedup(xs) + [x]
  {
    assert (xs + [x])[..|xs|] == xs;
  }

  /** A subject occurs in the list of subjects exactly when some schedule has it. */
  lemma SubjectOccurs(saved: seq<SavedSchedule>, k: string)
    ensures k in Subjects(saved) <==> exists i :: 0 <= i < |saved| && saved[i].subject == k
  {
    var subjects := Subjects(saved);
    if k in subjects {
      var i :| 0 <= i < |subjects| && subjects[i] == k;
      assert saved[i].subject == k;
    }
    if exists i :: 0 <= i < |saved| && saved[i].subject == k {
      var i :| 0 <= i < |saved| && saved[i].subject == k;
      assert subjects[i] == k;
    }
  }

  /** A subject not yet among the distinct subjects has an empty group. */
  lemma UnseenSubject(saved: seq<SavedSchedule>, k: string)
    requires k !in Dedup(Subjects(saved))
    ensures OfSubject(saved, k) == []
  {
    DedupShape(Subjects(saved));
    SubjectOccurs(saved, k);
    OfSubjectAbsent(saved, k);
  }

  /** The grouping object after the schedules `prefix`: its keys in the order they were
      first set are the distinct subjects so far, and each holds its subject's schedules. */
  ghost predicate GroupsSoFar(acc: map<string, seq<SavedSchedule>>, keyOrder: seq<string>, prefix: seq<SavedSchedule>) {
    && keyOrder == Dedup(Subjects(prefix))
    && (forall k :: k in acc <==> k in keyOrder)
    && (forall k :: k in acc ==> acc[k] == OfSubject(prefix, k))
  }

  /** One step of the reduce over schedule `i`: create its subject's array if there is none,
      then push the schedule. */
  lemma GroupStep(acc: map<string, seq<SavedSchedule>>, keyOrder: seq<string>, saved: seq<SavedSchedule>, i: nat)
    requires i < |saved| && GroupsSoFar(acc, keyOrder, saved[..i])
    ensures var s := saved[i];
            var created := if s.subject in acc then acc else acc[s.subject := []];
            GroupsSoFar(created[s.subject := created[s.subject] + [s]],
                        if s.subject in acc then keyOrder else keyOrder + [s.subject],
                        saved[..i + 1])
  {
    var prefix, s := saved[..i], saved[i];
    var created := if s.subject in acc then acc else acc[s.subject := []];
    var pushed := created[s.subject := created[s.subject] + [s]];
    var keys := if s.subject in acc then keyOrder else keyOrder + [s.subject];
    assert saved[..i + 1] == prefix + [s];
    assert keys == Dedup(Subjects(prefix + [s])) by {
      SubjectsSnoc(prefix, s);
      DedupSnoc(Subjects(prefix), s.subject);
    }
    assert forall k :: k in pushed ==> pushed[k] == OfSubject(prefix + [s], k) by {
      if s.subject !in acc {
        UnseenSubject(prefix, s.subject);
      }
      forall k | k in pushed ensures pushed[k] == OfSubject(prefix + [s], k) {
        OfSubjectSnoc(prefix, s, k);
      }
    }
  }

  /** The `reduce` that groups the schedules: an object whose keys are the subjects, each
      holding the array of that subject's schedules. The object is a map plus the order in
      which its keys were first set, the order `Object.entries` lists them in. */
  method GroupBySubject(saved: seq<SavedSchedule>) returns (acc: map<string, seq<SavedSchedule>>, keyOrder: seq<string>)
    ensures GroupsSoFar(acc, keyOrder, saved)
  {
    acc, keyOrder := map[], [];
    var i := 0;
    while i < |saved|
      invariant 0 <= i <= |saved|
      invariant GroupsSoFar(acc, keyOrder, saved[..i])
    {
      var s := saved[i];
      GroupStep(acc, keyOrder, saved, i);
      if s.subject !in acc {
        acc := acc[s.subject := []];
        keyOrder := keyOrder + [s.subject];
      }
      acc := acc[s.subject := acc[s.subject] + [s]];
      i := i + 1;
    }
    assert saved[..|saved|] == saved;
  }

  /** `Object.entries`: the key and value pairs of the object, in key order. */
  method Entries(acc: map<string, seq<SavedSchedule>>, keyOrder: seq<string>) returns (entries: seq<(string, seq<SavedSchedule>)>)
    requires forall k :: k in keyOrder ==> k in acc
    ensures |entries| == |keyOrder|
    ensures forall n :: 0 <= n < |keyOrder| ==> entries[n] == (keyOrder[n], acc[keyOrder[n]])
  {
    entries := [];
    var j := 0;
    while j < |keyOrder|
      invariant 0 <= j <= |keyOrder|
      invariant |entries| == j
      invariant forall n :: 0 <= n < j ==> entries[n] == (keyOrder[n], acc[keyOrder[n]])
    {
      entries := entries + [(keyOrder[j], acc[keyOrder[j]])];
      j := j + 1;
    }
  }

  /** `subjectGroups`: one entry per subject, taken in order of first appearance, holding
      that subject's schedules in list order. */
  method SubjectGroups(saved: seq<SavedSchedule>) returns (groups: seq<(string, seq<SavedSchedule>)>)
    ensures |groups| == |Dedup(Subjects(saved))|
    ensures forall i :: 0 <= i < |groups| ==>
              groups[i] == (Dedup(Subjects(saved))[i], OfSubject(saved, Dedup(Subjects(saved))[i]))
  {
    var acc, keyOrder := GroupBySubject(saved);
    groups := Entries(acc, keyOrder);
  }

  /** The subjects are listed once each, and they are exactly the subjects that occur. */
  lemma GroupKeys(saved: seq<SavedSchedule>, k: string)
    ensures Distinct(Dedup(Subjects(saved)))
    ensures k in Dedup(Subjects(saved)) <==> exists i :: 0 <= i < |saved| && saved[i].subject == k
  {
    DedupShape(Subjects(saved));
    SubjectOccurs(saved, k);
  }

  /** Every schedule appears in the group of its own subject. */
  lemma GroupingCovers(saved: seq<SavedSchedule>, i: nat)
    requires i < |saved|
    ensures saved[i] in OfSubject(saved, saved[i].subject)
  {
    OfSubjectMembers(saved, saved[i].subject);
    assert saved[i] in saved;
  }

  /** The total size of the groups of the subjects `keys`. */
  function GroupSizes(saved: seq<SavedSchedule>, keys: seq<string>): nat {
    if keys == [] then 0 else |OfSubject(saved, keys[0])| + GroupSizes(saved, keys[1..])
  }

  /** Appending a schedule grows the groups of distinct subjects by one in total if its
      subject is among them, and not at all otherwise. */
  lemma {:induction false} GroupSizesAppend(saved: seq<SavedSchedule>, s: SavedSchedule, keys: seq<string>)
    requires Distinct(keys)
    ensures GroupSizes(saved + [s], keys) == GroupSizes(saved, keys) + (if s.subject in keys then 1 else 0)
  {
    if keys != [] {
      var tail := keys[1..];
      assert Distinct(tail) by {
        forall i, j | 0 <= i < j < |tail| ensures tail[i] != tail[j] {
          assert tail[i] == keys[i + 1] && tail[j] == keys[j + 1];
        }
      }
      GroupSizesAppend(saved, s, tail);
      assert (saved + [s])[..|saved|] == saved;
      assert s.subject in keys <==> s.subject == keys[0] || s.subject in tail;
      if s.subject == keys[0] {
        assert s.subject !in tail by {
          forall i | 0 <= i < |tail| ensures tail[i] != keys[0] {
            assert tail[i] == keys[i + 1];
          }
        }
      }
    }
  }

  /** A subject no schedule has gets an empty group. */
  lemma OfSubjectAbsent(saved: seq<SavedSchedule>, k: string)
    requires forall i :: 0 <= i < |saved| ==> saved[i].subject != k
    ensures OfSubject(saved, k) == []
  {
    OfSubjectMembers(saved, k);
  }

  /** The groups partition the list: their sizes add up to the number of schedules. */
  lemma {:induction false} GroupingPartitions(saved: seq<SavedSchedule>)
    ensures GroupSizes(saved, Dedup(Subjects(saved))) == |saved|
  {
    if saved != [] {
      var init, s := saved[..|saved| - 1], saved[|saved| - 1];
      assert saved == init + [s];
      GroupingPartitions(init);
      var keys := Dedup(Subjects(init));
      assert Distinct(keys) by {
        DedupShape(Subjects(init));
      }
      assert Dedup(Subjects(saved)) == if s.subject in keys then keys else keys + [s.subject] by {
        SubjectsSnoc(init, s);
        DedupSnoc(Subjects(init), s.subject);
      }
      GroupSizesAppend(init, s, keys);
      if s.subject !in keys {
        assert OfSubject(saved, s.subject) == [s] by {
          UnseenSubject(init, s.subject);
          OfSubjectSnoc(init, s, s.subject);
        }
        GroupSizesSnoc(saved, keys, s.subject);
      }
    }
  }

  /** The total size with one more subject at the end adds that subject's group. */
  lemma {:induction false} GroupSizesSnoc(saved: seq<SavedSchedule>, keys: seq<string>, k: string)
    ensures GroupSizes(saved, keys + [k]) == GroupSizes(saved, keys) + |OfSubject(saved, k)|
  {
    if keys == [] {
      assert [k][1..] == [];
    } else {
      assert (keys + [k])[1..] == keys[1..] + [k];
      GroupSizesSnoc(saved, keys[1..], k);
    }
  }
}
