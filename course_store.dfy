/** The course service (backend/course_service.py): the `courses`, `module_progress`,
    `course_progress` and `quiz_attempts` collections held in memory, course and module
    editing, progress upserts, and the recording side of quiz submission. A collection is
    a sequence in insertion order; `find_one` and `update_one` act on its first match. */
module CourseStore {
  import opened Wrappers
  import opened Models
  import Seqs
  import Grading

  // ---------------------------------------------------------------- courses

  /** The index of the first course with the given id. */
  function FindCourse(cs: seq<Course>, id: string): (r: Option<nat>)
    ensures r.Some? ==> r.value < |cs| && cs[r.value].id == id
    ensures r.Some? ==> forall j :: 0 <= j < r.value ==> cs[j].id != id
    ensures r.None? <==> forall j :: 0 <= j < |cs| ==> cs[j].id != id
  {
    Seqs.FirstIndex(cs, (c: Course) => c.id == id)
  }

  predicate UniqueCourseIds(cs: seq<Course>) {
    forall i, j :: 0 <= i < j < |cs| ==> cs[i].id != cs[j].id
  }

  /** With unique ids, the course found for an id is the only one carrying it. */
  lemma FindCourseUnique(cs: seq<Course>, k: nat)
    requires UniqueCourseIds(cs) && k < |cs|
    ensures FindCourse(cs, cs[k].id) == Some(k)
  {
    var f := FindCourse(cs, cs[k].id);
    assert f.Some?;
  }

  /** Replacing a course by one with the same id keeps the ids unique. */
  lemma ReplaceCourseAt(cs: seq<Course>, k: nat, c: Course)
    requires UniqueCourseIds(cs) && k < |cs| && c.id == cs[k].id
    ensures UniqueCourseIds(cs[k := c])
  {
  }

  /** Removing the course at `k` keeps ids unique and drops exactly the courses with its id. */
  lemma RemoveCourseAt(cs: seq<Course>, k: nat)
    requires UniqueCourseIds(cs) && k < |cs|
    ensures var r := cs[..k] + cs[k + 1..];
      && UniqueCourseIds(r)
      && forall c :: c in r <==> c in cs && c.id != cs[k].id
  {
    var r := cs[..k] + cs[k + 1..];
    assert forall i :: 0 <= i < |r| ==> r[i] == (if i < k then cs[i] else cs[i + 1]);
    forall c | c in cs && c.id != cs[k].id ensures c in r {
      var i :| 0 <= i < |cs| && cs[i] == c;
      if i < k { assert r[i] == c; } else { assert r[i - 1] == c; }
    }
  }

  /** A course after `$set` of the fields of `u` that are not None, and of `updated_at`. */
  function ApplyCourseUpdate(c: Course, u: CourseUpdate, now: int): (r: Course)
    ensures r.title == u.title.GetOr(c.title)
    ensures r.description == u.description.GetOr(c.description)
    ensures u.shortDescription.Some? ==> r.shortDescription == u.shortDescription
    ensures u.shortDescription.None? ==> r.shortDescription == c.shortDescription
    ensures r.content == u.content.GetOr(c.content)
    ensures r.status == u.status.GetOr(c.status)
    ensures r.tags == u.tags.GetOr(c.tags)
    ensures u.category.Some? ==> r.category == u.category
    ensures u.category.None? ==> r.category == c.category
    ensures u.difficultyLevel.Some? ==> r.difficultyLevel == u.difficultyLevel
    ensures u.difficultyLevel.None? ==> r.difficultyLevel == c.difficultyLevel
    ensures u.estimatedDurationHours.Some? ==> r.estimatedDurationHours == u.estimatedDurationHours
    ensures u.estimatedDurationHours.None? ==> r.estimatedDurationHours == c.estimatedDurationHours
    ensures r.updatedAt == now
    ensures r.id == c.id && r.modules == c.modules && r.thumbnailUrl == c.thumbnailUrl
    ensures r.createdBy == c.createdBy && r.createdAt == c.createdAt && r.version == c.version
  {
    c.(title := u.title.GetOr(c.title),
       description := u.description.GetOr(c.description),
       shortDescription := if u.shortDescription.Some? then u.shortDescription else c.shortDescription,
       content := u.content.GetOr(c.content),
       status := u.status.GetOr(c.status),
       tags := u.tags.GetOr(c.tags),
       category := if u.category.Some? then u.category else c.category,
       difficultyLevel := if u.difficultyLevel.Some? then u.difficultyLevel else c.difficultyLevel,
       estimatedDurationHours := if u.estimatedDurationHours.Some? then u.estimatedDurationHours
                                 else c.estimatedDurationHours,
       updatedAt := now)
  }

  /** An update with every field None only touches `updated_at`. */
  lemma EmptyCourseUpdate(c: Course, now: int)
    ensures ApplyCourseUpdate(c, CourseUpdate(None, None, None, None, None, None, None, None, None), now)
            == c.(updatedAt := now)
  {
  }

  function StatusUpdate(s: CourseStatus): CourseUpdate {
    CourseUpdate(None, None, None, None, Some(s), None, None, None, None)
  }

  /** The filter of get_courses: a status when one is given, a creator when a non-empty
      one is given. */
  predicate CourseMatches(c: Course, status: Option<CourseStatus>, createdBy: Option<string>) {
    && (status.None? || c.status == status.value)
    && (createdBy.None? || createdBy.value == "" || c.createdBy == createdBy)
  }

  predicate NewestFirst(cs: seq<Course>) {
    forall i, j :: 0 <= i < j < |cs| ==> cs[i].updatedAt >= cs[j].updatedAt
  }

  /** A course no older than the head of a newest-first list can be put in front of it. */
  lemma ConsNewestFirst(c: Course, cs: seq<Course>)
    requires NewestFirst(cs) && (|cs| > 0 ==> c.updatedAt >= cs[0].updatedAt)
    ensures NewestFirst([c] + cs)
  {
    var r := [c] + cs;
    forall i, j | 0 <= i < j < |r| ensures r[i].updatedAt >= r[j].updatedAt {
      if i == 0 {
        assert r[j] == cs[j - 1];
        assert cs[0].updatedAt >= cs[j - 1].updatedAt || j == 1;
      } else {
        assert r[i] == cs[i - 1] && r[j] == cs[j - 1];
      }
    }
  }

  function InsertNewestFirst(c: Course, cs: seq<Course>): (r: seq<Course>)
    requires NewestFirst(cs)
    ensures |r| == |cs| + 1
    ensures r[0] == c || (|cs| > 0 && r[0] == cs[0])
    ensures NewestFirst(r)
    ensures multiset(r) == multiset(cs) + multiset{c}
  {
    if |cs| == 0 then [c]
    else if c.updatedAt >= cs[0].updatedAt then ConsNewestFirst(c, cs); [c] + cs
    else
      var rest := InsertNewestFirst(c, cs[1..]);
      assert cs == [cs[0]] + cs[1..];
      ConsNewestFirst(cs[0], rest);
      [cs[0]] + rest
  }

  function SortNewestFirst(cs: seq<Course>): (r: seq<Course>)
    ensures NewestFirst(r)
    ensures multiset(r) == multiset(cs)
  {
    if |cs| == 0 then []
    else
      assert cs == [cs[0]] + cs[1..];
      InsertNewestFirst(cs[0], SortNewestFirst(cs[1..]))
  }

  /** get_courses: the matching courses, most recently updated first. */
  function QueryCourses(cs: seq<Course>, status: Option<CourseStatus> := None, createdBy: Option<string> := None): (r: seq<Course>)
    ensures NewestFirst(r)
    ensures multiset(r) == multiset(Seqs.Filter(cs, (c: Course) => CourseMatches(c, status, createdBy)))
    ensures forall c :: c in r <==> c in cs && CourseMatches(c, status, createdBy)
  {
    var matching := Seqs.Filter(cs, (c: Course) => CourseMatches(c, status, createdBy));
    var r := SortNewestFirst(matching);
    Seqs.SameMembers(r, matching);
    r
  }

  // ---------------------------------------------------------------- modules

  /** The index of the first module with the given id. */
  function FindModule(ms: seq<CourseModule>, id: string): (r: Option<nat>)
    ensures r.Some? ==> r.value < |ms| && ms[r.value].id == id
    ensures r.Some? ==> forall j :: 0 <= j < r.value ==> ms[j].id != id
    ensures r.None? <==> forall j :: 0 <= j < |ms| ==> ms[j].id != id
  {
    Seqs.FirstIndex(ms, (m: CourseModule) => m.id == id)
  }

  /** `$pull` of every module with the given id. */
  function RemoveModules(ms: seq<CourseModule>, id: string): (r: seq<CourseModule>)
    ensures forall m :: m in r <==> m in ms && m.id != id
    ensures |r| <= |ms|
    ensures |r| == |ms| <==> forall j :: 0 <= j < |ms| ==> ms[j].id != id
  {
    if |ms| == 0 then []
    else
      var rest := RemoveModules(ms[1..], id);
      assert forall j :: 0 < j < |ms| ==> ms[j] == ms[1..][j - 1];
      if ms[0].id == id then rest else [ms[0]] + rest
  }

  /** The modules remaining after a removal keep their relative order. */
  lemma {:induction false} RemoveModulesKeepsOrder(ms: seq<CourseModule>, id: string, xs: seq<CourseModule>, ys: seq<CourseModule>)
    requires ms == xs + ys
    ensures RemoveModules(ms, id) == RemoveModules(xs, id) + RemoveModules(ys, id)
    decreases |xs|
  {
    if |xs| == 0 {
      assert ms == ys;
    } else {
      assert ms[1..] == xs[1..] + ys;
      RemoveModulesKeepsOrder(ms[1..], id, xs[1..], ys);
    }
  }

  /** A module after `$set` of the fields of `u` that are not None, and of `updated_at`. */
  function ApplyModuleUpdate(m: CourseModule, u: ModuleUpdate, now: int): (r: CourseModule)
    ensures r.title == u.title.GetOr(m.title)
    ensures u.description.Some? ==> r.description == u.description
    ensures u.description.None? ==> r.description == m.description
    ensures r.mtype == u.mtype.GetOr(m.mtype)
    ensures r.content == u.content.GetOr(m.content)
    ensures r.order == u.order.GetOr(m.order)
    ensures r.isRequired == u.isRequired.GetOr(m.isRequired)
    ensures u.estimatedDurationMinutes.Some? ==> r.estimatedDurationMinutes == u.estimatedDurationMinutes
    ensures u.estimatedDurationMinutes.None? ==> r.estimatedDurationMinutes == m.estimatedDurationMinutes
    ensures r.id == m.id && r.createdAt == m.createdAt && r.updatedAt == now
  {
    m.(title := u.title.GetOr(m.title),
       description := if u.description.Some? then u.description else m.description,
       mtype := u.mtype.GetOr(m.mtype),
       content := u.content.GetOr(m.content),
       order := u.order.GetOr(m.order),
       isRequired := u.isRequired.GetOr(m.isRequired),
       estimatedDurationMinutes := if u.estimatedDurationMinutes.Some? then u.estimatedDurationMinutes
                                   else m.estimatedDurationMinutes,
       updatedAt := now)
  }

  datatype OrderItem = OrderItem(id: string, order: int)

  /** One entry of a reorder request as the caller sent it: either key may be missing. */
  datatype OrderEntry = OrderEntry(id: Option<string>, order: Option<int>)

  /** The key whose lookup raises `KeyError` on this entry; `id` is read before `order`. */
  function EntryError(e: OrderEntry): (r: Option<string>)
    ensures r.None? <==> e.id.Some? && e.order.Some?
    ensures r == Some("id") <==> e.id.None?
    ensures r == Some("order") <==> e.id.Some? && e.order.None?
  {
    if e.id.None? then Some("id") else if e.order.None? then Some("order") else None
  }

  /** The position of the first entry that raises, if any. */
  function FirstMalformed(es: seq<OrderEntry>): (r: Option<nat>)
    ensures r.Some? ==> r.value < |es| && EntryError(es[r.value]).Some?
    ensures forall j :: 0 <= j < |es| && (r.None? || j < r.value) ==> EntryError(es[j]).None?
  {
    Seqs.FirstIndex(es, (e: OrderEntry) => EntryError(e).Some?)
  }

  /** The order items the entries carry; applied only to entries that have both keys. */
  function Items(es: seq<OrderEntry>): (r: seq<OrderItem>)
    ensures |r| == |es|
    ensures forall j :: 0 <= j < |es| && EntryError(es[j]).None? ==>
      r[j] == OrderItem(es[j].id.value, es[j].order.value)
  {
    seq(|es|, (j: int) requires 0 <= j < |es| => OrderItem(es[j].id.GetOr(""), es[j].order.GetOr(0)))
  }

  /** `$set` of `modules.$.order` on the first module with the given id, if any. */
  function SetModuleOrder(ms: seq<CourseModule>, id: string, order: int): (r: seq<CourseModule>)
    ensures |r| == |ms|
    ensures forall j :: 0 <= j < |ms| ==> r[j].id == ms[j].id
    ensures FindModule(ms, id).None? ==> r == ms
    ensures FindModule(ms, id).Some? ==>
      var k := FindModule(ms, id).value;
      r[k] == ms[k].(order := order) && forall j :: 0 <= j < |ms| && j != k ==> r[j] == ms[j]
  {
    match FindModule(ms, id)
    case None => ms
    case Some(k) => ms[k := ms[k].(order := order)]
  }

  /** The modules after the reorder requests, applied one after another. */
  function ApplyOrders(ms: seq<CourseModule>, items: seq<OrderItem>): (r: seq<CourseModule>)
    ensures |r| == |ms|
    ensures forall j :: 0 <= j < |ms| ==> r[j].id == ms[j].id
    decreases |items|
  {
    if |items| == 0 then ms
    else
      var prefix := ApplyOrders(ms, items[..|items| - 1]);
      SetModuleOrder(prefix, items[|items| - 1].id, items[|items| - 1].order)
  }

  predicate UniqueModuleIds(ms: seq<CourseModule>) {
    forall i, j :: 0 <= i < j < |ms| ==> ms[i].id != ms[j].id
  }

  /** The order the last request naming `id` asks for, if any request names it. */
  function LastOrderFor(items: seq<OrderItem>, id: string): Option<int>
    decreases |items|
  {
    if |items| == 0 then None
    else if items[|items| - 1].id == id then Some(items[|items| - 1].order)
    else LastOrderFor(items[..|items| - 1], id)
  }

  /** There is no requested order for `id` exactly when no request names it. */
  lemma {:induction false} LastOrderForNone(items: seq<OrderItem>, id: string)
    ensures LastOrderFor(items, id).None? <==> forall i :: 0 <= i < |items| ==> items[i].id != id
    decreases |items|
  {
    if |items| > 0 {
      var n := |items| - 1;
      LastOrderForNone(items[..n], id);
      assert forall i :: 0 <= i < n ==> items[..n][i] == items[i];
    }
  }

  /** The requested order for `id` is that of the last request naming it. */
  lemma {:induction false} LastOrderForLast(items: seq<OrderItem>, id: string, i: nat)
    requires i < |items| && items[i].id == id
    requires forall l :: i < l < |items| ==> items[l].id != id
    ensures LastOrderFor(items, id) == Some(items[i].order)
    decreases |items|
  {
    var n := |items| - 1;
    if i < n {
      var pre := items[..n];
      assert pre[i] == items[i];
      assert forall l :: i < l < n ==> pre[l] == items[l];
      LastOrderForLast(pre, id, i);
    }
  }

  /** Applying one more well-formed entry is one more `SetModuleOrder`. */
  lemma ItemsStep(ms: seq<CourseModule>, es: seq<OrderEntry>, i: nat)
    requires i < |es| && forall j :: 0 <= j <= i ==> EntryError(es[j]).None?
    ensures ApplyOrders(ms, Items(es[..i + 1]))
      == SetModuleOrder(ApplyOrders(ms, Items(es[..i])), es[i].id.value, es[i].order.value)
  {
    var xs := Items(es[..i + 1]);
    assert xs[..i] == Items(es[..i]);
  }

  /** The first entry that raises, found at `i` when every entry before it is well formed. */
  lemma FirstMalformedAt(es: seq<OrderEntry>, i: nat)
    requires i < |es| && EntryError(es[i]).Some?
    requires forall j :: 0 <= j < i ==> EntryError(es[j]).None?
    ensures FirstMalformed(es) == Some(i)
  {
  }

  /** Reordering only changes `order` fields: with unique module ids, each module ends with
      the order of the last request naming it, and a module no request names is
      untouched. */
  lemma {:induction false} ApplyOrdersEffect(ms: seq<CourseModule>, items: seq<OrderItem>, j: nat)
    requires UniqueModuleIds(ms) && j < |ms|
    ensures ApplyOrders(ms, items)[j] == ms[j].(order := LastOrderFor(items, ms[j].id).GetOr(ms[j].order))
    decreases |items|
  {
    if |items| > 0 {
      var n := |items| - 1;
      var pre := items[..n];
      ApplyOrdersEffect(ms, pre, j);
      var prefix := ApplyOrders(ms, pre);
      var last := items[n];
      assert ApplyOrders(ms, items) == SetModuleOrder(prefix, last.id, last.order);
      var f := FindModule(prefix, last.id);
      if last.id == ms[j].id {
        assert prefix[j].id == last.id;
        assert f.Some?;
        assert ms[f.value].id == ms[j].id;
        assert f.value == j;
      } else if f.Some? {
        assert ms[f.value].id == last.id;
        assert f.value != j;
      }
    }
  }

  // ---------------------------------------------------------------- progress

  function ModuleKey(p: ModuleProgress): (string, string, string) {
    (p.userAccessKey, p.courseId, p.moduleId)
  }

  /** At most one progress document per (user, course, module). */
  predicate UniqueModuleProgress(rs: seq<ModuleProgress>) {
    forall i, j :: 0 <= i < j < |rs| ==> ModuleKey(rs[i]) != ModuleKey(rs[j])
  }

  function FindModuleProgress(rs: seq<ModuleProgress>, key: (string, string, string)): (r: Option<nat>)
    ensures r.Some? ==> r.value < |rs| && ModuleKey(rs[r.value]) == key
    ensures r.None? <==> forall j :: 0 <= j < |rs| ==> ModuleKey(rs[j]) != key
  {
    Seqs.FirstIndex(rs, (p: ModuleProgress) => ModuleKey(p) == key)
  }

  /** The `$set` of update_module_progress on an existing document: `score` only when one
      is given, `completed_at` only when completed. */
  function MarkModule(p: ModuleProgress, completed: bool, score: Option<real>, now: int): ModuleProgress {
    p.(completed := completed,
       score := if score.Some? then score else p.score,
       lastAccessed := now,
       completedAt := if completed then Some(now) else p.completedAt)
  }

  /** The upsert of update_module_progress. */
  function UpsertModuleProgress(rs: seq<ModuleProgress>, user: string, courseId: string, moduleId: string,
                                completed: bool, score: Option<real>, now: int): seq<ModuleProgress>
  {
    match FindModuleProgress(rs, (user, courseId, moduleId))
    case Some(k) => rs[k := MarkModule(rs[k], completed, score, now)]
    case None =>
      rs + [ModuleProgress(user, courseId, moduleId, completed, score, now, if completed then Some(now) else None)]
  }

  /** The upsert keeps at most one document per key, leaves the documents of other keys
      as they are, and leaves exactly one document for its key, carrying the new state. */
  lemma UpsertModuleProgressEffect(rs: seq<ModuleProgress>, user: string, courseId: string, moduleId: string,
                                   completed: bool, score: Option<real>, now: int)
    requires UniqueModuleProgress(rs)
    ensures var r := UpsertModuleProgress(rs, user, courseId, moduleId, completed, score, now);
            var key := (user, courseId, moduleId);
      && UniqueModuleProgress(r)
      && (forall p :: ModuleKey(p) != key ==> (p in r <==> p in rs))
      && FindModuleProgress(r, key).Some?
      && var p := r[FindModuleProgress(r, key).value];
         && p.completed == completed && p.lastAccessed == now
         && (score.Some? ==> p.score == score)
         && (completed ==> p.completedAt == Some(now))
         && (FindModuleProgress(rs, key).None? ==> (score.None? ==> p.score == None) && (!completed ==> p.completedAt == None))
         && (FindModuleProgress(rs, key).Some? ==>
               var q := rs[FindModuleProgress(rs, key).value];
               (score.None? ==> p.score == q.score) && (!completed ==> p.completedAt == q.completedAt))
  {
    var key := (user, courseId, moduleId);
    var r := UpsertModuleProgress(rs, user, courseId, moduleId, completed, score, now);
    match FindModuleProgress(rs, key)
    case Some(k) =>
      assert ModuleKey(r[k]) == key;
      assert FindModuleProgress(r, key) == Some(k) by {
        var f := FindModuleProgress(r, key);
        assert f.Some?;
        assert ModuleKey(r[f.value]) == ModuleKey(r[k]);
      }
      forall p | ModuleKey(p) != key ensures p in r <==> p in rs {
        if p in rs {
          var i :| 0 <= i < |rs| && rs[i] == p;
          assert r[i] == p;
        }
        if p in r {
          var i :| 0 <= i < |r| && r[i] == p;
          assert rs[i] == p;
        }
      }
    case None =>
      var n := |rs|;
      assert ModuleKey(r[n]) == key;
      assert FindModuleProgress(r, key) == Some(n) by {
        assert forall j :: 0 <= j < n ==> r[j] == rs[j];
        var f := FindModuleProgress(r, key);
        assert f.Some?;
      }
  }

  function CourseKey(p: CourseProgress): (string, string) {
    (p.userAccessKey, p.courseId)
  }

  /** At most one course-progress document per (user, course). */
  predicate UniqueCourseProgress(rs: seq<CourseProgress>) {
    forall i, j :: 0 <= i < j < |rs| ==> CourseKey(rs[i]) != CourseKey(rs[j])
  }

  function FindCourseProgress(rs: seq<CourseProgress>, key: (string, string)): (r: Option<nat>)
    ensures r.Some? ==> r.value < |rs| && CourseKey(rs[r.value]) == key
    ensures r.None? <==> forall j :: 0 <= j < |rs| ==> CourseKey(rs[j]) != key
  {
    Seqs.FirstIndex(rs, (p: CourseProgress) => CourseKey(p) == key)
  }

  predicate CompletedIn(p: ModuleProgress, user: string, courseId: string) {
    p.userAccessKey == user && p.courseId == courseId && p.completed
  }

  /** count_documents of the user's completed progress documents for the course. It counts
      documents, whether or not their module is still part of the course. */
  function CompletedCount(rs: seq<ModuleProgress>, user: string, courseId: string): nat {
    Seqs.Count(rs, (p: ModuleProgress) => CompletedIn(p, user, courseId))
  }

  /** completed / total * 100. */
  function ProgressPercentage(completed: int, total: int): (r: real)
    requires total > 0
    ensures r * (total as real) == (completed as real) * 100.0
    ensures r >= 100.0 <==> completed >= total
  {
    var r := (completed as real / total as real) * 100.0;
    assert r >= 100.0 <==> completed as real / total as real >= 1.0;
    r
  }

  /** The sum and the number of the scores of the user's completed, scored documents. */
  function ScoreSum(rs: seq<ModuleProgress>, user: string, courseId: string): (real, nat) {
    if |rs| == 0 then (0.0, 0)
    else
      var rest := ScoreSum(rs[1..], user, courseId);
      var p := rs[0];
      if CompletedIn(p, user, courseId) && p.score.Some? then (p.score.value + rest.0, rest.1 + 1) else rest
  }

  /** The `$avg` of those scores, None when there are none. */
  function OverallScore(rs: seq<ModuleProgress>, user: string, courseId: string): (r: Option<real>)
    ensures r.None? <==> ScoreSum(rs, user, courseId).1 == 0
    ensures r.Some? ==> r.value * (ScoreSum(rs, user, courseId).1 as real) == ScoreSum(rs, user, courseId).0
  {
    var (sum, n) := ScoreSum(rs, user, courseId);
    if n == 0 then None else Some(sum / n as real)
  }

  /** The `$set`/upsert of _update_course_progress for (user, course): `started_at` is
      written only on insert, `completed_at` once the percentage reaches 100. */
  function UpsertCourseProgress(cps: seq<CourseProgress>, user: string, courseId: string,
                                total: int, done: int, pct: real, avg: Option<real>, now: int): seq<CourseProgress>
  {
    match FindCourseProgress(cps, (user, courseId))
    case Some(k) =>
      cps[k := cps[k].(totalModules := total, completedModules := done, progressPercentage := pct,
                       overallScore := avg, lastAccessed := now,
                       completedAt := if pct >= 100.0 then Some(now) else cps[k].completedAt)]
    case None =>
      cps + [CourseProgress(user, courseId, total, done, pct, avg, now, now,
                            if pct >= 100.0 then Some(now) else None)]
  }

  /** The course-progress upsert keeps at most one document per key, leaves the documents
      of other keys alone, and leaves one document for its key with the new counts. */
  lemma UpsertCourseProgressEffect(cps: seq<CourseProgress>, user: string, courseId: string,
                                   total: int, done: int, pct: real, avg: Option<real>, now: int)
    requires UniqueCourseProgress(cps)
    ensures var r := UpsertCourseProgress(cps, user, courseId, total, done, pct, avg, now);
            var key := (user, courseId);
      && UniqueCourseProgress(r)
      && (forall p :: CourseKey(p) != key ==> (p in r <==> p in cps))
      && FindCourseProgress(r, key).Some?
      && var p := r[FindCourseProgress(r, key).value];
         && p.totalModules == total && p.completedModules == done && p.progressPercentage == pct
         && p.overallScore == avg && p.lastAccessed == now
         && (pct >= 100.0 ==> p.completedAt == Some(now))
         && (FindCourseProgress(cps, key).None? ==> p.startedAt == now && (pct < 100.0 ==> p.completedAt == None))
         && (FindCourseProgress(cps, key).Some? ==>
               var q := cps[FindCourseProgress(cps, key).value];
               p.startedAt == q.startedAt && (pct < 100.0 ==> p.completedAt == q.completedAt))
  {
    var key := (user, courseId);
    var r := UpsertCourseProgress(cps, user, courseId, total, done, pct, avg, now);
    match FindCourseProgress(cps, key)
    case Some(k) =>
      assert CourseKey(r[k]) == key;
      assert FindCourseProgress(r, key) == Some(k) by {
        var f := FindCourseProgress(r, key);
        assert f.Some?;
        assert CourseKey(r[f.value]) == CourseKey(r[k]);
      }
      forall p | CourseKey(p) != key ensures p in r <==> p in cps {
        if p in cps {
          var i :| 0 <= i < |cps| && cps[i] == p;
          assert r[i] == p;
        }
        if p in r {
          var i :| 0 <= i < |r| && r[i] == p;
          assert cps[i] == p;
        }
      }
    case None =>
      var n := |cps|;
      assert CourseKey(r[n]) == key;
      assert FindCourseProgress(r, key) == Some(n) by {
        assert forall j :: 0 <= j < n ==> r[j] == cps[j];
        var f := FindCourseProgress(r, key);
        assert f.Some?;
      }
  }

  /** _update_course_progress: nothing when the course is missing or has no modules;
      otherwise the upsert of the (user, course) document with the completed count, the
      percentage and the average score. */
  function RefreshCourseProgress(cs: seq<Course>, mps: seq<ModuleProgress>, cps: seq<CourseProgress>,
                                 user: string, courseId: string, now: int): seq<CourseProgress>
  {
    match FindCourse(cs, courseId)
    case None => cps
    case Some(c) =>
      var total := |cs[c].modules|;
      if total == 0 then cps
      else
        var done := CompletedCount(mps, user, courseId);
        UpsertCourseProgress(cps, user, courseId, total, done, ProgressPercentage(done, total),
                             OverallScore(mps, user, courseId), now)
  }

  /** The course-progress refresh: skipped for a missing course or one without modules;
      otherwise it leaves one document for (user, course) whose percentage is
      completed / total * 100, marked complete once the completed count reaches the number
      of modules, and it keeps at most one document per key. */
  lemma RefreshCourseProgressEffect(cs: seq<Course>, mps: seq<ModuleProgress>, cps: seq<CourseProgress>,
                                    user: string, courseId: string, now: int)
    requires UniqueCourseProgress(cps)
    ensures var r := RefreshCourseProgress(cs, mps, cps, user, courseId, now);
      && UniqueCourseProgress(r)
      && (forall p :: CourseKey(p) != (user, courseId) ==> (p in r <==> p in cps))
      && (FindCourse(cs, courseId).None? ==> r == cps)
      && (FindCourse(cs, courseId).Some? && cs[FindCourse(cs, courseId).value].modules == [] ==> r == cps)
      && (FindCourse(cs, courseId).Some? && cs[FindCourse(cs, courseId).value].modules != [] ==>
            var total := |cs[FindCourse(cs, courseId).value].modules|;
            var done := CompletedCount(mps, user, courseId);
            && FindCourseProgress(r, (user, courseId)).Some?
            && var p := r[FindCourseProgress(r, (user, courseId)).value];
               && p.totalModules == total && p.completedModules == done
               && p.progressPercentage == ProgressPercentage(done, total)
               && p.overallScore == OverallScore(mps, user, courseId)
               && (done >= total ==> p.completedAt == Some(now)))
  {
    match FindCourse(cs, courseId)
    case None =>
    case Some(c) =>
      var total := |cs[c].modules|;
      if total != 0 {
        var done := CompletedCount(mps, user, courseId);
        var pct := ProgressPercentage(done, total);
        assert pct >= 100.0 <==> done >= total;
        UpsertCourseProgressEffect(cps, user, courseId, total, done, pct, OverallScore(mps, user, courseId), now);
      }
  }

  // ---------------------------------------------------------------- quiz submission

  datatype SubmitError = CourseNotFound | QuizNotFound | GradingFailed(cause: Grading.GradeError)

  /** The error text submit_quiz returns (or, for a grading failure, the exception's). */
  function SubmitErrorMessage(e: SubmitError): (r: string)
    ensures e.CourseNotFound? <==> r == "Course not found"
    ensures e.QuizNotFound? <==> r == "Quiz not found"
  {
    match e
    case CourseNotFound => "Course not found"
    case QuizNotFound => "Quiz not found"
    case GradingFailed(_) => "'NoneType' object has no attribute 'lower'"
  }

  /** What submit_quiz reports for a submission against the courses `cs`. */
  function SubmitOutcome(cs: seq<Course>, courseId: string, moduleId: string, quizId: string,
                         answers: seq<QuizAnswer>): (r: Result<Grading.QuizScore, SubmitError>)
    ensures r == Err(CourseNotFound) <==> FindCourse(cs, courseId).None?
    ensures r.Err? && !r.error.GradingFailed? ==>
      SubmitErrorMessage(r.error) == (if FindCourse(cs, courseId).None? then "Course not found" else "Quiz not found")
    ensures r.Err? && r.error.GradingFailed? ==>
      exists quiz :: Grading.FindQuiz(cs[FindCourse(cs, courseId).value], moduleId, quizId) == Some(quiz)
                     && Grading.Grade(quiz, answers) == Err(r.error.cause)
    ensures r == Err(QuizNotFound) <==>
      FindCourse(cs, courseId).Some? && Grading.FindQuiz(cs[FindCourse(cs, courseId).value], moduleId, quizId).None?
    ensures r.Ok? ==> exists quiz :: Grading.FindQuiz(cs[FindCourse(cs, courseId).value], moduleId, quizId) == Some(quiz)
                                     && Grading.Grade(quiz, answers) == Ok(r.value)
  {
    match FindCourse(cs, courseId)
    case None => Err(CourseNotFound)
    case Some(k) =>
      match Grading.FindQuiz(cs[k], moduleId, quizId)
      case None => Err(QuizNotFound)
      case Some(quiz) =>
        match Grading.Grade(quiz, answers)
        case Err(e) => Err(GradingFailed(e))
        case Ok(g) => Ok(g)
  }

  /** The attempt document submit_quiz inserts. */
  function AttemptRecord(id: string, user: string, courseId: string, moduleId: string, quizId: string,
                         g: Grading.QuizScore, now: int): (a: QuizAttempt)
    ensures a.score == g.score && a.maxScore == g.maxScore && a.passed == g.passed
    ensures a.userAccessKey == user && a.quizId == quizId && a.courseId == courseId && a.moduleId == moduleId
    ensures a.id == id && a.timeTakenMinutes == None && a.startedAt == now && a.completedAt == now
  {
    QuizAttempt(id, user, courseId, moduleId, quizId, g.score, g.maxScore, g.passed, None, now, now)
  }

  // ---------------------------------------------------------------- the service

  class CourseService {
    var courses: seq<Course>
    var moduleProgress: seq<ModuleProgress>
    var courseProgress: seq<CourseProgress>
    var quizAttempts: seq<QuizAttempt>

    ghost predicate Valid()
      reads this
    {
      && UniqueCourseIds(courses)
      && UniqueModuleProgress(moduleProgress)
      && UniqueCourseProgress(courseProgress)
    }

    constructor ()
      ensures Valid()
      ensures courses == [] && moduleProgress == [] && courseProgress == [] && quizAttempts == []
    {
      courses, moduleProgress, courseProgress, quizAttempts := [], [], [], [];
    }

    /** create_course; `id` is the fresh identifier the service draws from uuid4. */
    method CreateCourse(id: string, data: CourseCreate, createdBy: string, now: int) returns (c: Course)
      requires Valid()
      requires forall j :: 0 <= j < |courses| ==> courses[j].id != id
      modifies this
      ensures Valid()
      ensures c == NewCourse(id, data, createdBy, now)
      ensures courses == old(courses) + [c]
      ensures moduleProgress == old(moduleProgress) && courseProgress == old(courseProgress)
      ensures quizAttempts == old(quizAttempts)
    {
      c := NewCourse(id, data, createdBy, now);
      courses := courses + [c];
    }

    /** get_course. */
    function GetCourse(id: string): (r: Option<Course>)
      reads this
      ensures r.Some? ==> r.value in courses && r.value.id == id
      ensures r.None? <==> forall j :: 0 <= j < |courses| ==> courses[j].id != id
    {
      match FindCourse(courses, id)
      case None => None
      case Some(k) => Some(courses[k])
    }

    /** update_course: None when no document changed (the course is missing, or the update
        leaves it as it was), otherwise the updated course. */
    method UpdateCourse(id: string, u: CourseUpdate, now: int) returns (r: Option<Course>)
      requires Valid()
      modifies this
      ensures Valid()
      ensures FindCourse(old(courses), id).None? ==> r.None? && courses == old(courses)
      ensures FindCourse(old(courses), id).Some? ==>
        var k := FindCourse(old(courses), id).value;
        var c := ApplyCourseUpdate(old(courses)[k], u, now);
        && courses == old(courses)[k := c]
        && r == (if c == old(courses)[k] then None else Some(c))
      ensures moduleProgress == old(moduleProgress) && courseProgress == old(courseProgress)
      ensures quizAttempts == old(quizAttempts)
    {
      match FindCourse(courses, id)
      case None =>
        r := None;
      case Some(k) =>
        var c := ApplyCourseUpdate(courses[k], u, now);
        var changed := c != courses[k];
        courses := courses[k := c];
        r := if changed then Some(c) else None;
    }

    /** delete_course: removes the first course with the id. */
    method DeleteCourse(id: string) returns (deleted: bool)
      requires Valid()
      modifies this
      ensures Valid()
      ensures deleted <==> FindCourse(old(courses), id).Some?
      ensures deleted ==> var k := FindCourse(old(courses), id).value;
                          courses == old(courses)[..k] + old(courses)[k + 1..]
      ensures !deleted ==> courses == old(courses)
      ensures forall c :: c in courses <==> c in old(courses) && c.id != id
      ensures moduleProgress == old(moduleProgress) && courseProgress == old(courseProgress)
      ensures quizAttempts == old(quizAttempts)
    {
      match FindCourse(courses, id)
      case None =>
        deleted := false;
      case Some(k) =>
        RemoveCourseAt(courses, k);
        courses := courses[..k] + courses[k + 1..];
        deleted := true;
    }

    /** publish_course: update_course with status published. */
    method PublishCourse(id: string, now: int) returns (r: Option<Course>)
      requires Valid()
      modifies this
      ensures Valid()
      ensures FindCourse(old(courses), id).None? ==> r.None? && courses == old(courses)
      ensures FindCourse(old(courses), id).Some? ==>
        var k := FindCourse(old(courses), id).value;
        var c := old(courses)[k].(status := Published, updatedAt := now);
        && courses == old(courses)[k := c]
        && r == (if c == old(courses)[k] then None else Some(c))
      ensures moduleProgress == old(moduleProgress) && courseProgress == old(courseProgress)
      ensures quizAttempts == old(quizAttempts)
    {
      r := UpdateCourse(id, StatusUpdate(Published), now);
    }

    /** unpublish_course: update_course with status draft. */
    method UnpublishCourse(id: string, now: int) returns (r: Option<Course>)
      requires Valid()
      modifies this
      ensures Valid()
      ensures FindCourse(old(courses), id).None? ==> r.None? && courses == old(courses)
      ensures FindCourse(old(courses), id).Some? ==>
        var k := FindCourse(old(courses), id).value;
        var c := old(courses)[k].(status := Draft, updatedAt := now);
        && courses == old(courses)[k := c]
        && r == (if c == old(courses)[k] then None else Some(c))
      ensures moduleProgress == old(moduleProgress) && courseProgress == old(courseProgress)
      ensures quizAttempts == old(quizAttempts)
    {
      r := UpdateCourse(id, StatusUpdate(Draft), now);
    }

    /** get_courses. */
    function GetCourses(status: Option<CourseStatus> := None, createdBy: Option<string> := None): (r: seq<Course>)
      reads this
      ensures NewestFirst(r)
      ensures forall c :: c in r <==> c in courses && CourseMatches(c, status, createdBy)
      ensures multiset(r) == multiset(Seqs.Filter(courses, (c: Course) => CourseMatches(c, status, createdBy)))
    {
      QueryCourses(courses, status, createdBy)
    }

    /** add_module: appends the new module with `order` equal to the number of modules the
        course had, and stamps the course's `updated_at`. */
    method AddModule(courseId: string, moduleId: string, data: ModuleCreate, now: int) returns (r: Option<CourseModule>)
      requires Valid()
      modifies this
      ensures Valid()
      ensures FindCourse(old(courses), courseId).None? ==> r.None? && courses == old(courses)
      ensures FindCourse(old(courses), courseId).Some? ==>
        var k := FindCourse(old(courses), courseId).value;
        var c := old(courses)[k];
        && r == Some(NewModule(moduleId, data, |c.modules|, now))
        && courses == old(courses)[k := c.(modules := c.modules + [r.value], updatedAt := now)]
      ensures moduleProgress == old(moduleProgress) && courseProgress == old(courseProgress)
      ensures quizAttempts == old(quizAttempts)
    {
      match FindCourse(courses, courseId)
      case None =>
        r := None;
      case Some(k) =>
        var c := courses[k];
        var m := NewModule(moduleId, data, |c.modules|, now);
        courses := courses[k := c.(modules := c.modules + [m], updatedAt := now)];
        r := Some(m);
    }

    /** update_module: the first module with the id, in the course, gets the non-None
        fields of `u`; the result says whether the document changed. */
    method UpdateModule(courseId: string, moduleId: string, u: ModuleUpdate, now: int) returns (modified: bool)
      requires Valid()
      modifies this
      ensures Valid()
      ensures (FindCourse(old(courses), courseId).None? ||
               FindModule(old(courses)[FindCourse(old(courses), courseId).value].modules, moduleId).None?)
              ==> !modified && courses == old(courses)
      ensures FindCourse(old(courses), courseId).Some? ==>
        var k := FindCourse(old(courses), courseId).value;
        var c := old(courses)[k];
        FindModule(c.modules, moduleId).Some? ==>
          var j := FindModule(c.modules, moduleId).value;
          var m := ApplyModuleUpdate(c.modules[j], u, now);
          && courses == old(courses)[k := c.(modules := c.modules[j := m])]
          && (modified <==> m != c.modules[j])
      ensures moduleProgress == old(moduleProgress) && courseProgress == old(courseProgress)
      ensures quizAttempts == old(quizAttempts)
    {
      modified := false;
      match FindCourse(courses, courseId)
      case None =>
      case Some(k) =>
        var c := courses[k];
        match FindModule(c.modules, moduleId)
        case None =>
        case Some(j) =>
          var m := ApplyModuleUpdate(c.modules[j], u, now);
          modified := m != c.modules[j];
          courses := courses[k := c.(modules := c.modules[j := m])];
    }

    /** delete_module: removes every module with the id from the course; the result says
        whether any was removed. The remaining modules keep their `order` values. */
    method DeleteModule(courseId: string, moduleId: string) returns (modified: bool)
      requires Valid()
      modifies this
      ensures Valid()
      ensures FindCourse(old(courses), courseId).None? ==> !modified && courses == old(courses)
      ensures FindCourse(old(courses), courseId).Some? ==>
        var k := FindCourse(old(courses), courseId).value;
        var c := old(courses)[k];
        && courses == old(courses)[k := c.(modules := RemoveModules(c.modules, moduleId))]
        && (modified <==> exists j :: 0 <= j < |c.modules| && c.modules[j].id == moduleId)
      ensures moduleProgress == old(moduleProgress) && courseProgress == old(courseProgress)
      ensures quizAttempts == old(quizAttempts)
    {
      modified := false;
      match FindCourse(courses, courseId)
      case None =>
      case Some(k) =>
        var c := courses[k];
        var rest := RemoveModules(c.modules, moduleId);
        modified := |rest| != |c.modules|;
        courses := courses[k := c.(modules := rest)];
    }

    /** reorder_modules: one positional order update per request, in request order. */
    method ReorderModules(courseId: string, entries: seq<OrderEntry>) returns (r: Result<bool, string>)
      requires Valid()
      modifies this
      ensures Valid()
      ensures FindCourse(old(courses), courseId).None? ==> r == Ok(false) && courses == old(courses)
      ensures FindCourse(old(courses), courseId).Some? ==>
        var k := FindCourse(old(courses), courseId).value;
        var n := FirstMalformed(entries).GetOr(|entries|);
        && courses == old(courses)[k := old(courses)[k].(modules := ApplyOrders(old(courses)[k].modules, Items(entries[..n])))]
        && r == (if n < |entries| then Err(EntryError(entries[n]).value) else Ok(true))
      ensures moduleProgress == old(moduleProgress) && courseProgress == old(courseProgress)
      ensures quizAttempts == old(quizAttempts)
    {
      var f := FindCourse(courses, courseId);
      if f.None? {
        return Ok(false);
      }
      var k := f.value;
      ghost var c := courses[k];
      var i := 0;
      while i < |entries| && EntryError(entries[i]).None?
        invariant 0 <= i <= |entries|
        invariant forall j :: 0 <= j < i ==> EntryError(entries[j]).None?
        invariant |courses| == |old(courses)| && k < |courses| && Valid()
        invariant courses == old(courses)[k := c.(modules := ApplyOrders(c.modules, Items(entries[..i])))]
        invariant moduleProgress == old(moduleProgress) && courseProgress == old(courseProgress)
        invariant quizAttempts == old(quizAttempts)
      {
        var e := entries[i];
        var cur := courses[k];
        ItemsStep(c.modules, entries, i);
        ReplaceCourseAt(courses, k, cur.(modules := SetModuleOrder(cur.modules, e.id.value, e.order.value)));
        courses := courses[k := cur.(modules := SetModuleOrder(cur.modules, e.id.value, e.order.value))];
        i := i + 1;
      }
      if i < |entries| {
        FirstMalformedAt(entries, i);
        return Err(EntryError(entries[i]).value);
      }
      Seqs.TakeAll(entries);
      return Ok(true);
    }

    /** update_module_progress followed by _update_course_progress. */
    method UpdateModuleProgress(user: string, courseId: string, moduleId: string, now: int,
                                completed: bool := true, score: Option<real> := None) returns (ok: bool)
      requires Valid()
      modifies this
      ensures Valid() && ok
      ensures moduleProgress == UpsertModuleProgress(old(moduleProgress), user, courseId, moduleId, completed, score, now)
      ensures courseProgress == RefreshCourseProgress(courses, moduleProgress, old(courseProgress), user, courseId, now)
      ensures courses == old(courses) && quizAttempts == old(quizAttempts)
    {
      UpsertModuleProgressEffect(moduleProgress, user, courseId, moduleId, completed, score, now);
      moduleProgress := UpsertModuleProgress(moduleProgress, user, courseId, moduleId, completed, score, now);
      RefreshCourseProgressEffect(courses, moduleProgress, courseProgress, user, courseId, now);
      courseProgress := RefreshCourseProgress(courses, moduleProgress, courseProgress, user, courseId, now);
      ok := true;
    }

    /** get_user_course_progress: the (user, course) document, if any, and the user's module
        documents for the course. */
    function GetUserCourseProgress(user: string, courseId: string): (r: (Option<CourseProgress>, seq<ModuleProgress>))
      reads this
      ensures r.0.Some? ==> r.0.value in courseProgress && CourseKey(r.0.value) == (user, courseId)
      ensures r.0.None? <==> forall j :: 0 <= j < |courseProgress| ==> CourseKey(courseProgress[j]) != (user, courseId)
      ensures forall p :: p in r.1 <==> p in moduleProgress && p.userAccessKey == user && p.courseId == courseId
    {
      var cp := match FindCourseProgress(courseProgress, (user, courseId))
                case None => None
                case Some(k) => Some(courseProgress[k]);
      (cp, Seqs.Filter(moduleProgress, (p: ModuleProgress) => p.userAccessKey == user && p.courseId == courseId))
    }

    /** submit_quiz: grades the answers, inserts one attempt and records the module as
        completed exactly when the attempt passed. On an error nothing is written. */
    method SubmitQuiz(user: string, courseId: string, moduleId: string, quizId: string,
                      answers: seq<QuizAnswer>, attemptId: string, now: int)
      returns (r: Result<Grading.QuizScore, SubmitError>)
      requires Valid()
      modifies this
      ensures Valid()
      ensures r == SubmitOutcome(old(courses), courseId, moduleId, quizId, answers)
      ensures courses == old(courses)
      ensures r.Err? ==> && quizAttempts == old(quizAttempts) && moduleProgress == old(moduleProgress)
                         && courseProgress == old(courseProgress)
      ensures r.Ok? ==>
        && quizAttempts == old(quizAttempts) + [AttemptRecord(attemptId, user, courseId, moduleId, quizId, r.value, now)]
        && moduleProgress == UpsertModuleProgress(old(moduleProgress), user, courseId, moduleId,
                                                  r.value.passed, Some(r.value.score), now)
        && courseProgress == RefreshCourseProgress(courses, moduleProgress, old(courseProgress), user, courseId, now)
    {
      var k := FindCourse(courses, courseId);
      if k.None? {
        return Err(CourseNotFound);
      }
      var quiz := Grading.FindQuiz(courses[k.value], moduleId, quizId);
      if quiz.None? {
        return Err(QuizNotFound);
      }
      var earned := Grading.ScoreAnswers(quiz.value, answers);
      if earned.Err? {
        return Err(GradingFailed(earned.error));
      }
      var total := Grading.TotalPoints(quiz.value.questions);
      var score := Grading.ScorePercentage(earned.value, total);
      var passed := Grading.Passed(score, quiz.value.passingScore);
      var g := Grading.QuizScore(score, total, earned.value, passed, quiz.value.passingScore);
      quizAttempts := quizAttempts + [AttemptRecord(attemptId, user, courseId, moduleId, quizId, g, now)];
      var _ := UpdateModuleProgress(user, courseId, moduleId, now, passed, Some(score));
      r := Ok(g);
    }
  }
}
