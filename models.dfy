/** The records and enumerations of the portal's course service (backend/models.py).
    Timestamps are integers (seconds); identifiers that Python draws from uuid4 are
    supplied by the caller. */
module Models {
  import opened Wrappers

  // ---------------------------------------------------------------- enumerations

  datatype CourseStatus = Draft | Published | Archived

  datatype ModuleType = TextModule | VideoModule | QuizModule | FileModule

  datatype QuestionType = MultipleChoice | SingleChoice | TrueFalse | TextInput | Essay

  /** The string each status is stored as (the enumeration derives from `str`). */
  function CourseStatusValue(s: CourseStatus): string {
    match s
    case Draft => "draft"
    case Published => "published"
    case Archived => "archived"
  }

  /** The status stored as `v`, if any; the inverse of CourseStatusValue. */
  function ParseCourseStatus(v: string): (r: Option<CourseStatus>)
    ensures r.Some? ==> CourseStatusValue(r.value) == v
    ensures r.None? ==> forall s :: CourseStatusValue(s) != v
  {
    if v == "draft" then Some(Draft)
    else if v == "published" then Some(Published)
    else if v == "archived" then Some(Archived)
    else None
  }

  function ModuleTypeValue(t: ModuleType): string {
    match t
    case TextModule => "text"
    case VideoModule => "video"
    case QuizModule => "quiz"
    case FileModule => "file"
  }

  function ParseModuleType(v: string): (r: Option<ModuleType>)
    ensures r.Some? ==> ModuleTypeValue(r.value) == v
    ensures r.None? ==> forall t :: ModuleTypeValue(t) != v
  {
    if v == "text" then Some(TextModule)
    else if v == "video" then Some(VideoModule)
    else if v == "quiz" then Some(QuizModule)
    else if v == "file" then Some(FileModule)
    else None
  }

  function QuestionTypeValue(t: QuestionType): string {
    match t
    case MultipleChoice => "multiple_choice"
    case SingleChoice => "single_choice"
    case TrueFalse => "true_false"
    case TextInput => "text_input"
    case Essay => "essay"
  }

  function ParseQuestionType(v: string): (r: Option<QuestionType>)
    ensures r.Some? ==> QuestionTypeValue(r.value) == v
    ensures r.None? ==> forall t :: QuestionTypeValue(t) != v
  {
    if v == "multiple_choice" then Some(MultipleChoice)
    else if v == "single_choice" then Some(SingleChoice)
    else if v == "true_false" then Some(TrueFalse)
    else if v == "text_input" then Some(TextInput)
    else if v == "essay" then Some(Essay)
    else None
  }

  const AllCourseStatuses: seq<CourseStatus> := [Draft, Published, Archived]
  const AllModuleTypes: seq<ModuleType> := [TextModule, VideoModule, QuizModule, FileModule]
  const AllQuestionTypes: seq<QuestionType> := [MultipleChoice, SingleChoice, TrueFalse, TextInput, Essay]

  /** CourseStatus has exactly three members, stored as three different strings, and
      parsing a stored string gives back its member. */
  lemma CourseStatusMembers()
    ensures |AllCourseStatuses| == 3 && forall s :: s in AllCourseStatuses
    ensures forall i, j :: 0 <= i < j < 3 ==>
      CourseStatusValue(AllCourseStatuses[i]) != CourseStatusValue(AllCourseStatuses[j])
    ensures forall s :: ParseCourseStatus(CourseStatusValue(s)) == Some(s)
  {
    forall s: CourseStatus ensures s in AllCourseStatuses {
      match s
      case Draft => assert s == AllCourseStatuses[0];
      case Published => assert s == AllCourseStatuses[1];
      case Archived => assert s == AllCourseStatuses[2];
    }
  }

  /** ModuleType has exactly four members, stored as four different strings. */
  lemma ModuleTypeMembers()
    ensures |AllModuleTypes| == 4 && forall t :: t in AllModuleTypes
    ensures forall i, j :: 0 <= i < j < 4 ==>
      ModuleTypeValue(AllModuleTypes[i]) != ModuleTypeValue(AllModuleTypes[j])
    ensures forall t :: ParseModuleType(ModuleTypeValue(t)) == Some(t)
  {
    forall t: ModuleType ensures t in AllModuleTypes {
      match t
      case TextModule => assert t == AllModuleTypes[0];
      case VideoModule => assert t == AllModuleTypes[1];
      case QuizModule => assert t == AllModuleTypes[2];
      case FileModule => assert t == AllModuleTypes[3];
    }
  }

  /** QuestionType has exactly five members, stored as five different strings. */
  lemma QuestionTypeMembers()
    ensures |AllQuestionTypes| == 5 && forall t :: t in AllQuestionTypes
    ensures forall i, j :: 0 <= i < j < 5 ==>
      QuestionTypeValue(AllQuestionTypes[i]) != QuestionTypeValue(AllQuestionTypes[j])
    ensures forall t :: ParseQuestionType(QuestionTypeValue(t)) == Some(t)
  {
    forall t: QuestionType ensures t in AllQuestionTypes {
      match t
      case MultipleChoice => assert t == AllQuestionTypes[0];
      case SingleChoice => assert t == AllQuestionTypes[1];
      case TrueFalse => assert t == AllQuestionTypes[2];
      case TextInput => assert t == AllQuestionTypes[3];
      case Essay => assert t == AllQuestionTypes[4];
    }
  }

  // ---------------------------------------------------------------- quizzes

  datatype QuizOption = QuizOption(id: string, text: string, isCorrect: bool)

  datatype QuizQuestion = QuizQuestion(
    id: string,
    question: string,
    qtype: QuestionType,
    options: seq<QuizOption>,
    correctAnswer: Option<string>,
    points: int,
    explanation: Option<string>)

  datatype Quiz = Quiz(
    id: string,
    title: string,
    description: Option<string>,
    questions: seq<QuizQuestion>,
    passingScore: int,
    maxAttempts: Option<int>,
    timeLimitMinutes: Option<int>)

  /** One submitted answer. `textAnswer` is None when the submission has no
      `text_answer` entry at all. */
  datatype QuizAnswer = QuizAnswer(questionId: string, selectedOptions: seq<string>, textAnswer: Option<string>)

  function NewQuizOption(id: string, text: string): (o: QuizOption)
    ensures o.id == id && o.text == text && !o.isCorrect
  {
    QuizOption(id, text, false)
  }

  function NewQuizQuestion(id: string, question: string, qtype: QuestionType): (q: QuizQuestion)
    ensures q.id == id && q.question == question && q.qtype == qtype
    ensures q.points == 1 && q.options == [] && q.correctAnswer == None && q.explanation == None
  {
    QuizQuestion(id, question, qtype, [], None, 1, None)
  }

  function NewQuiz(id: string, title: string): (z: Quiz)
    ensures z.id == id && z.title == title && z.description == Some("") && z.questions == []
    ensures z.passingScore == 70 && z.maxAttempts == None && z.timeLimitMinutes == None
  {
    Quiz(id, title, Some(""), [], 70, None, None)
  }

  function NewQuizAnswer(questionId: string): (a: QuizAnswer)
    ensures a.questionId == questionId && a.selectedOptions == [] && a.textAnswer == None
  {
    QuizAnswer(questionId, [], None)
  }

  // ---------------------------------------------------------------- modules and courses

  datatype ModuleContent = ModuleContent(
    textContent: Option<string>,
    videoUrl: Option<string>,
    fileUrls: seq<string>,
    quiz: Option<Quiz>)

  datatype CourseModule = CourseModule(
    id: string,
    title: string,
    description: Option<string>,
    mtype: ModuleType,
    content: ModuleContent,
    order: int,
    isRequired: bool,
    estimatedDurationMinutes: Option<int>,
    createdAt: int,
    updatedAt: int)

  datatype Course = Course(
    id: string,
    title: string,
    description: string,
    shortDescription: Option<string>,
    content: string,
    status: CourseStatus,
    modules: seq<CourseModule>,
    tags: seq<string>,
    category: Option<string>,
    difficultyLevel: Option<string>,
    estimatedDurationHours: Option<real>,
    thumbnailUrl: Option<string>,
    createdBy: Option<string>,
    createdAt: int,
    updatedAt: int,
    version: int)

  datatype CourseCreate = CourseCreate(
    title: string,
    description: string,
    shortDescription: Option<string>,
    content: string,
    tags: seq<string>,
    category: Option<string>,
    difficultyLevel: Option<string>,
    estimatedDurationHours: Option<real>)

  /** A partial course update: None means "leave this field alone". */
  datatype CourseUpdate = CourseUpdate(
    title: Option<string>,
    description: Option<string>,
    shortDescription: Option<string>,
    content: Option<string>,
    status: Option<CourseStatus>,
    tags: Option<seq<string>>,
    category: Option<string>,
    difficultyLevel: Option<string>,
    estimatedDurationHours: Option<real>)

  datatype ModuleCreate = ModuleCreate(
    title: string,
    description: Option<string>,
    mtype: ModuleType,
    content: ModuleContent,
    isRequired: bool,
    estimatedDurationMinutes: Option<int>)

  /** A partial module update: None means "leave this field alone". */
  datatype ModuleUpdate = ModuleUpdate(
    title: Option<string>,
    description: Option<string>,
    mtype: Option<ModuleType>,
    content: Option<ModuleContent>,
    order: Option<int>,
    isRequired: Option<bool>,
    estimatedDurationMinutes: Option<int>)

  /** A course built from a creation request: a draft, version 1, with no modules. */
  function NewCourse(id: string, data: CourseCreate, createdBy: string, now: int): (c: Course)
    ensures c.id == id && c.status == Draft && c.version == 1 && c.modules == []
    ensures c.title == data.title && c.description == data.description && c.tags == data.tags
    ensures c.shortDescription == data.shortDescription && c.content == data.content
    ensures c.category == data.category && c.difficultyLevel == data.difficultyLevel
    ensures c.estimatedDurationHours == data.estimatedDurationHours && c.thumbnailUrl == None
    ensures c.createdBy == Some(createdBy) && c.createdAt == now && c.updatedAt == now
  {
    Course(id, data.title, data.description, data.shortDescription, data.content, Draft, [],
           data.tags, data.category, data.difficultyLevel, data.estimatedDurationHours,
           None, Some(createdBy), now, now, 1)
  }

  /** A module built from a creation request, placed at position `order`. */
  function NewModule(id: string, data: ModuleCreate, order: int, now: int): (m: CourseModule)
    ensures m.id == id && m.order == order && m.title == data.title && m.content == data.content
    ensures m.description == data.description && m.mtype == data.mtype
    ensures m.isRequired == data.isRequired && m.estimatedDurationMinutes == data.estimatedDurationMinutes
    ensures m.createdAt == now && m.updatedAt == now
  {
    CourseModule(id, data.title, data.description, data.mtype, data.content, order,
                 data.isRequired, data.estimatedDurationMinutes, now, now)
  }

  // ---------------------------------------------------------------- progress and attempts

  /** A module-progress document as the progress upsert writes it. */
  datatype ModuleProgress = ModuleProgress(
    userAccessKey: string,
    courseId: string,
    moduleId: string,
    completed: bool,
    score: Option<real>,
    lastAccessed: int,
    completedAt: Option<int>)

  /** A course-progress document as the course-progress upsert writes it. */
  datatype CourseProgress = CourseProgress(
    userAccessKey: string,
    courseId: string,
    totalModules: int,
    completedModules: int,
    progressPercentage: real,
    overallScore: Option<real>,
    startedAt: int,
    lastAccessed: int,
    completedAt: Option<int>)

  /** A stored quiz attempt; the answers are not kept (the service stores an empty list). */
  datatype QuizAttempt = QuizAttempt(
    id: string,
    userAccessKey: string,
    courseId: string,
    moduleId: string,
    quizId: string,
    score: real,
    maxScore: int,
    passed: bool,
    timeTakenMinutes: Option<int>,
    startedAt: int,
    completedAt: int)

  // ---------------------------------------------------------------- access keys and users

  datatype AccessKey = AccessKey(
    id: string,
    key: string,
    isActive: bool,
    createdAt: int,
    expiresAt: Option<int>,
    usageCount: int,
    maxUsage: Option<int>,
    courseIds: seq<string>,
    createdBy: Option<string>)

  datatype User = User(
    id: string,
    sessionToken: Option<string>,
    accessKey: string,
    createdAt: int,
    lastLogin: Option<int>)

  /** A key with the declared defaults: active, unused, no usage limit, no expiry and
      no course restriction. */
  function NewAccessKey(id: string, key: string, now: int): (k: AccessKey)
    ensures k.id == id && k.key == key && k.createdAt == now
    ensures k.isActive && k.usageCount == 0 && k.maxUsage == None && k.expiresAt == None
    ensures k.courseIds == [] && k.createdBy == None
  {
    AccessKey(id, key, true, now, None, 0, None, [], None)
  }
}
