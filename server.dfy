/** The points ledger behind the contest API (server.js): registration with a
    face photo, contest participation by face, trivia answers and the question
    draw. The MySQL tables are sequences of rows whose ids are their positions
    plus one (auto-increment, rows are never deleted); each handler runs as one
    atomic step. The face service's answers, the clock (`now`, ms since the epoch),
    the generated session token and the random pick are parameters. */
module Server {
  import opened Common
  import opened AwsRekognition

  /** Session lifetime handed out at registration: 24 hours in milliseconds. */
  const RegistrationSessionDuration: int := 24 * 60 * 60 * 1000

  // Error messages of the handlers' replies.
  const NameRequired: string := "El nombre es requerido"
  const PhotoRequired: string := "La foto es requerida"
  const EmailAlreadyRegistered: string := "El email ya está registrado"
  const AwsNotConfigured: string := "Servicio de AWS Rekognition no configurado"
  const InvalidImageFormat: string := "Formato de imagen inválido"
  const FaceNotDetected: string := "No se detectó un rostro en la imagen o hay múltiples rostros"
  const RegistrationError: string := "Error al registrar usuario"
  const ContestNotFound: string := "Concurso no encontrado o inactivo"
  const ParticipationError: string := "Error al procesar participación"
  const FaceNotRecognised: string := "No te reconocemos. ¿Es tu primera vez?"
  const UserNotRegistered: string := "Usuario no registrado"
  const UserNotInDatabase: string := "Usuario no encontrado en la base de datos"
  const MissingParameters: string := "Faltan parámetros requeridos"
  const InvalidChoice: string := "Respuesta inválida. Debe ser A, B, C o D"
  const UserNotFound: string := "Usuario no encontrado"
  const QuestionNotFound: string := "Pregunta no encontrada"
  const AlreadyAnswered: string := "Ya respondiste esta pregunta anteriormente"
  const NoQuestionsAvailable: string := "No hay preguntas disponibles"

  // ---------------------------------------------------------------------------
  // Rows and tables
  // ---------------------------------------------------------------------------

  datatype User = User(
    id: nat,
    nombre: string,
    email: Option<string>,
    telefono: Option<string>,
    fotoRegistroUrl: string,
    rekognitionFaceId: Option<string>,
    totalPuntos: nat,
    activo: bool,
    fechaRegistro: int)

  datatype Contest = Contest(id: nat, codigoUnico: string, nombre: string, puntosOtorgados: nat, activo: bool)

  datatype Participation = Participation(
    usuarioId: nat,
    concursoId: nat,
    puntosGanados: nat,
    confidenceScore: real,
    fechaParticipacion: int)

  datatype Question = Question(
    id: nat,
    pregunta: string,
    opcionA: string, opcionB: string, opcionC: string, opcionD: string,
    respuestaCorrecta: string,
    puntos: nat,
    activo: bool)

  datatype Answer = Answer(
    usuarioId: nat,
    preguntaId: nat,
    respuestaSeleccionada: string,
    esCorrecta: bool,
    puntosGanados: nat)

  datatype Tables = Tables(
    users: seq<User>,
    contests: seq<Contest>,
    participations: seq<Participation>,
    questions: seq<Question>,
    answers: seq<Answer>)

  /** The answers a trivia question accepts. */
  const Choices: seq<string> := ["A", "B", "C", "D"]

  /** Position of the first element satisfying p: what `rows[0]` of a query picks. */
  function FirstIndex<T>(s: seq<T>, p: T -> bool): (r: Option<nat>)
    ensures r.Some? ==> r.value < |s| && p(s[r.value]) && forall j :: 0 <= j < r.value ==> !p(s[j])
    ensures r.None? ==> forall j :: 0 <= j < |s| ==> !p(s[j])
    decreases |s|
  {
    if s == [] then None
    else if p(s[0]) then Some(0)
    else match FirstIndex(s[1..], p)
      case None => None
      case Some(i) => Some(i + 1)
  }

  /** `UPDATE usuarios SET total_puntos = ? WHERE id = ?` with the balance just read
      plus the points, on the row at position u (each handler is one atomic step). */
  function Credit(users: seq<User>, u: nat, pts: nat): seq<User>
    requires u < |users|
  {
    users[u := users[u].(totalPuntos := users[u].totalPuntos + pts)]
  }

  /** Crediting moves that user's balance by the points and changes nothing else. */
  lemma CreditOnlyMovesBalance(users: seq<User>, u: nat, pts: nat)
    requires u < |users|
    ensures var r := Credit(users, u, pts);
            && |r| == |users|
            && r[u].totalPuntos == users[u].totalPuntos + pts
            && (forall i :: 0 <= i < |users| ==> r[i].id == users[i].id && r[i].email == users[i].email)
            && (forall i :: 0 <= i < |users| && i != u ==> r[i] == users[i])
  {
  }

  /** A position whose element satisfies p, with none before it, is the first one. */
  lemma FirstIndexAt<T>(s: seq<T>, p: T -> bool, k: nat)
    requires k < |s| && p(s[k])
    requires forall j :: 0 <= j < k ==> !p(s[j])
    ensures FirstIndex(s, p) == Some(k)
  {
  }

  // ---------------------------------------------------------------------------
  // The consistency invariant
  // ---------------------------------------------------------------------------

  /** Points the user earned in contests. */
  function ParticipationPoints(ps: seq<Participation>, uid: nat): nat
    decreases |ps|
  {
    if ps == [] then 0
    else ParticipationPoints(ps[..|ps| - 1], uid)
         + (if ps[|ps| - 1].usuarioId == uid then ps[|ps| - 1].puntosGanados else 0)
  }

  /** Points the user earned answering questions. */
  function AnswerPoints(rs: seq<Answer>, uid: nat): nat
    decreases |rs|
  {
    if rs == [] then 0
    else AnswerPoints(rs[..|rs| - 1], uid)
         + (if rs[|rs| - 1].usuarioId == uid then rs[|rs| - 1].puntosGanados else 0)
  }

  function Earned(t: Tables, uid: nat): nat
  {
    ParticipationPoints(t.participations, uid) + AnswerPoints(t.answers, uid)
  }

  predicate IdsArePositions(t: Tables)
  {
    && (forall i :: 0 <= i < |t.users| ==> t.users[i].id == i + 1)
    && (forall i :: 0 <= i < |t.contests| ==> t.contests[i].id == i + 1)
    && (forall i :: 0 <= i < |t.questions| ==> t.questions[i].id == i + 1)
  }

  /** Every participation and answer names an existing user, contest and question. */
  predicate References(t: Tables)
  {
    && (forall p :: p in t.participations ==> 1 <= p.usuarioId <= |t.users| && 1 <= p.concursoId <= |t.contests|)
    && (forall a :: a in t.answers ==> 1 <= a.usuarioId <= |t.users| && 1 <= a.preguntaId <= |t.questions|)
  }

  /** At most one participation per (user, contest) and one answer per (user, question). */
  predicate NoRepeats(t: Tables)
  {
    && (forall i, j :: 0 <= i < j < |t.participations| ==>
          t.participations[i].usuarioId != t.participations[j].usuarioId
          || t.participations[i].concursoId != t.participations[j].concursoId)
    && (forall i, j :: 0 <= i < j < |t.answers| ==>
          t.answers[i].usuarioId != t.answers[j].usuarioId
          || t.answers[i].preguntaId != t.answers[j].preguntaId)
  }

  /** Stored answers are upper-case choices, and a wrong one earned nothing. */
  predicate AnswersWellFormed(t: Tables)
  {
    forall a :: a in t.answers ==> a.respuestaSeleccionada in Choices && (!a.esCorrecta ==> a.puntosGanados == 0)
  }

  /** Stored emails are non-empty and belong to one user each. */
  predicate UniqueEmails(t: Tables)
  {
    && (forall i :: 0 <= i < |t.users| && t.users[i].email.Some? ==> t.users[i].email.value != "")
    && (forall i, j :: 0 <= i < j < |t.users| && t.users[i].email.Some? ==> t.users[i].email != t.users[j].email)
  }

  /** Every user's balance is the sum of the points recorded for that user. */
  predicate Balanced(t: Tables)
  {
    forall i :: 0 <= i < |t.users| ==> t.users[i].totalPuntos == Earned(t, i + 1)
  }

  predicate Consistent(t: Tables)
  {
    IdsArePositions(t) && References(t) && NoRepeats(t) && AnswersWellFormed(t) && UniqueEmails(t) && Balanced(t)
  }

  lemma {:induction false} ParticipationPointsAppend(ps: seq<Participation>, p: Participation, uid: nat)
    ensures ParticipationPoints(ps + [p], uid)
            == ParticipationPoints(ps, uid) + (if p.usuarioId == uid then p.puntosGanados else 0)
  {
    assert (ps + [p])[..|ps|] == ps;
  }

  lemma {:induction false} AnswerPointsAppend(rs: seq<Answer>, a: Answer, uid: nat)
    ensures AnswerPoints(rs + [a], uid)
            == AnswerPoints(rs, uid) + (if a.usuarioId == uid then a.puntosGanados else 0)
  {
    assert (rs + [a])[..|rs|] == rs;
  }

  lemma {:induction false} ParticipationPointsOfStranger(ps: seq<Participation>, uid: nat)
    requires forall p :: p in ps ==> p.usuarioId != uid
    ensures ParticipationPoints(ps, uid) == 0
    decreases |ps|
  {
    if ps != [] {
      assert forall p :: p in ps[..|ps| - 1] ==> p in ps;
      ParticipationPointsOfStranger(ps[..|ps| - 1], uid);
    }
  }

  lemma {:induction false} AnswerPointsOfStranger(rs: seq<Answer>, uid: nat)
    requires forall a :: a in rs ==> a.usuarioId != uid
    ensures AnswerPoints(rs, uid) == 0
    decreases |rs|
  {
    if rs != [] {
      assert forall a :: a in rs[..|rs| - 1] ==> a in rs;
      AnswerPointsOfStranger(rs[..|rs| - 1], uid);
    }
  }

  // ---------------------------------------------------------------------------
  // `base64ToBuffer`: the data-URL prefix
  // ---------------------------------------------------------------------------

  const DataImagePrefix: string := "data:image/"
  const Base64Marker: string := ";base64,"

  /** A character of the regular-expression class `\w`. */
  predicate IsWordChar(c: char)
  {
    ('a' <= c <= 'z') || ('A' <= c <= 'Z') || ('0' <= c <= '9') || c == '_'
  }

  /** Number of leading `\w` characters of s. */
  function WordRun(s: string): (k: nat)
    ensures k <= |s|
    ensures forall i :: 0 <= i < k ==> IsWordChar(s[i])
    ensures k < |s| ==> !IsWordChar(s[k])
    decreases |s|
  {
    if s != [] && IsWordChar(s[0]) then 1 + WordRun(s[1..]) else 0
  }

  /** `base64String.replace(/^data:image\/\w+;base64,/, '')`: the text that is then
      decoded as base64 (decoding itself is left to the face service's oracle). */
  function Base64Payload(s: string): (payload: string)
    ensures payload == s || (|payload| < |s| && s[|s| - |payload|..] == payload)
  {
    if DataImagePrefix <= s then
      var rest := s[|DataImagePrefix|..];
      var k := WordRun(rest);
      if k > 0 && Base64Marker <= rest[k..] then
        assert s[|s| - |rest[k + |Base64Marker|..]|..] == rest[k + |Base64Marker|..];
        rest[k + |Base64Marker|..]
      else s
    else s
  }

  lemma {:induction false} WordRunOf(word: string, rest: string)
    requires forall i :: 0 <= i < |word| ==> IsWordChar(word[i])
    requires rest != [] && !IsWordChar(rest[0])
    ensures WordRun(word + rest) == |word|
    decreases |word|
  {
    if word != [] {
      assert (word + rest)[1..] == word[1..] + rest;
      WordRunOf(word[1..], rest);
    }
  }

  /** A data URL loses exactly its `data:image/<type>;base64,` header. */
  lemma DataUrlPayload(imageType: string, data: string)
    requires imageType != []
    requires forall i :: 0 <= i < |imageType| ==> IsWordChar(imageType[i])
    ensures Base64Payload(DataImagePrefix + imageType + Base64Marker + data) == data
  {
    var s := DataImagePrefix + imageType + Base64Marker + data;
    var rest := s[|DataImagePrefix|..];
    assert rest == imageType + (Base64Marker + data);
    WordRunOf(imageType, Base64Marker + data);
    assert rest[|imageType|..] == Base64Marker + data;
    assert rest[|imageType| + |Base64Marker|..] == data;
  }

  /** Text that does not start with the header is decoded as it is. */
  lemma PlainBase64Unchanged(s: string)
    requires !(DataImagePrefix <= s)
    ensures Base64Payload(s) == s
  {
  }

  /** The regular expression `^data:image\/\w+;base64,` matches s with a type of k
      word characters. */
  predicate HeaderMatchesAt(s: string, k: nat)
  {
    && DataImagePrefix <= s
    && 0 < k && |DataImagePrefix| + k <= |s|
    && (forall i :: |DataImagePrefix| <= i < |DataImagePrefix| + k ==> IsWordChar(s[i]))
    && Base64Marker <= s[|DataImagePrefix| + k..]
  }

  /** Text the header expression does not match, such as a `data:image/` URL
      without `;base64,`, is decoded unchanged. */
  lemma {:induction false} MalformedHeaderUnchanged(s: string)
    requires forall k :: !HeaderMatchesAt(s, k)
    ensures Base64Payload(s) == s
  {
    if DataImagePrefix <= s {
      var rest := s[|DataImagePrefix|..];
      var k := WordRun(rest);
      if k > 0 && Base64Marker <= rest[k..] {
        assert forall i :: |DataImagePrefix| <= i < |DataImagePrefix| + k ==> s[i] == rest[i - |DataImagePrefix|];
        assert s[|DataImagePrefix| + k..] == rest[k..];
        assert HeaderMatchesAt(s, k);
        assert false;
      }
    }
  }

  /** Text the header expression matches loses exactly the matched header. */
  lemma {:induction false} MatchedHeaderStripped(s: string, k: nat)
    requires HeaderMatchesAt(s, k)
    ensures Base64Payload(s) == s[|DataImagePrefix| + k + |Base64Marker|..]
  {
    var rest := s[|DataImagePrefix|..];
    var word := rest[..k];
    assert rest == word + rest[k..];
    assert forall i :: 0 <= i < |word| ==> IsWordChar(word[i]) by {
      forall i | 0 <= i < |word|
        ensures IsWordChar(word[i])
      {
        assert word[i] == s[|DataImagePrefix| + i];
      }
    }
    assert rest[k..][0] == ';';
    WordRunOf(word, rest[k..]);
  }

  // ---------------------------------------------------------------------------
  // POST /api/usuarios/registro
  // ---------------------------------------------------------------------------

  datatype RegisterRequest = RegisterRequest(
    nombre: Option<string>,
    email: Option<string>,
    telefono: Option<string>,
    foto: Option<string>)

  datatype RegisterReply =
    | Registered(usuarioId: nat, nombre: string, email: Option<string>, faceId: string,
                 sessionToken: string, expiresAt: int)                                  // 201
    | RegisterFailed(status: nat, error: string)

  /** `value || null` */
  function OrNull(s: Option<string>): (r: Option<string>)
    ensures r.Some? <==> Truthy(s)
    ensures r.Some? ==> r == s
  {
    if Truthy(s) then s else None
  }

  predicate EmailTaken(users: seq<User>, email: string)
  {
    exists i :: 0 <= i < |users| && users[i].email == Some(email)
  }

  /** The name under which the registration photo is stored. */
  function RegistrationFileName(now: nat): string
  {
    "registro-" + NatToString(now) + ".jpg"
  }

  /** The validations that run before the face is indexed; None when all pass. */
  function RegisterGuard(t: Tables, req: RegisterRequest, awsConfigured: bool): (g: Option<RegisterReply>)
    ensures g.Some? ==> g.value.RegisterFailed?
  {
    if !Truthy(req.nombre) || Trim(req.nombre.value) == "" then Some(RegisterFailed(400, NameRequired))
    else if !Truthy(req.foto) then Some(RegisterFailed(400, PhotoRequired))
    else if Truthy(req.email) && EmailTaken(t.users, req.email.value) then
      Some(RegisterFailed(409, EmailAlreadyRegistered))
    else if !awsConfigured then Some(RegisterFailed(503, AwsNotConfigured))
    else None
  }

  /** The catch block of the handler, applied to what `indexFace` threw. */
  function RegisterErrorReply(e: Thrown): (r: RegisterReply)
    ensures r.RegisterFailed?
    ensures r.status == 400 <==> e.code == Some(InvalidImageFormatException) || e.code == Some(InvalidParameterException)
  {
    if e.code == Some(InvalidImageFormatException) then RegisterFailed(400, InvalidImageFormat)
    else if e.code == Some(InvalidParameterException) then
      RegisterFailed(400, FaceNotDetected)
    else RegisterFailed(500, RegistrationError)
  }

  /** The registration handler as one step over the tables, given what `indexFace`
      returned or threw. */
  function RegisterStep(t: Tables, req: RegisterRequest, awsConfigured: bool,
                        indexed: Result<IndexedFace, Thrown>, sessionToken: string, now: int): (r: (Tables, RegisterReply))
    ensures r.0.contests == t.contests && r.0.participations == t.participations
    ensures r.0.questions == t.questions && r.0.answers == t.answers
  {
    match RegisterGuard(t, req, awsConfigured)
    case Some(rejection) => (t, rejection)
    case None =>
      match indexed
      case Err(e) => (t, RegisterErrorReply(e))
      case Ok(face) =>
        var user := User(|t.users| + 1, req.nombre.value, OrNull(req.email), OrNull(req.telefono),
                         face.s3Url, Some(face.faceId), 0, true, now);
        (t.(users := t.users + [user]),
         Registered(user.id, req.nombre.value, OrNull(req.email), face.faceId, sessionToken,
                    now + RegistrationSessionDuration))
  }

  /** Every rejection answers 400, 409 or 503 and writes nothing; in particular a
      missing or blank name, a missing photo and a taken email are refused before
      any face is indexed. */
  lemma RegisterRejections(t: Tables, req: RegisterRequest, awsConfigured: bool,
                           indexed: Result<IndexedFace, Thrown>, sessionToken: string, now: int)
    requires RegisterGuard(t, req, awsConfigured).Some?
    ensures RegisterStep(t, req, awsConfigured, indexed, sessionToken, now).0 == t
    ensures RegisterGuard(t, req, awsConfigured).value.status in {400, 409, 503}
    ensures !Truthy(req.nombre) || AllWhitespace(req.nombre.value) ==>
              RegisterGuard(t, req, awsConfigured) == Some(RegisterFailed(400, NameRequired))
    ensures Truthy(req.email) && EmailTaken(t.users, req.email.value) ==>
              RegisterGuard(t, req, awsConfigured).value.status in {400, 409}
    ensures Truthy(req.nombre) && !AllWhitespace(req.nombre.value) && !Truthy(req.foto) ==>
              RegisterGuard(t, req, awsConfigured) == Some(RegisterFailed(400, PhotoRequired))
    ensures Truthy(req.nombre) && !AllWhitespace(req.nombre.value) && Truthy(req.foto)
            && Truthy(req.email) && EmailTaken(t.users, req.email.value) ==>
              RegisterGuard(t, req, awsConfigured) == Some(RegisterFailed(409, EmailAlreadyRegistered))
    ensures Truthy(req.nombre) && !AllWhitespace(req.nombre.value) && Truthy(req.foto)
            && !(Truthy(req.email) && EmailTaken(t.users, req.email.value)) ==>
              !awsConfigured && RegisterGuard(t, req, awsConfigured) == Some(RegisterFailed(503, AwsNotConfigured))
  {
    if Truthy(req.nombre) {
      TrimEmptyIffBlank(req.nombre.value);
    }
  }

  /** A successful registration appends exactly one user: the next id, the request's
      name, email and phone (null when empty), bound to the indexed face, with no
      points, active, registered now. */
  lemma RegisterInsertsOneUser(t: Tables, req: RegisterRequest, awsConfigured: bool,
                               indexed: Result<IndexedFace, Thrown>, sessionToken: string, now: int)
    requires RegisterStep(t, req, awsConfigured, indexed, sessionToken, now).1.Registered?
    ensures var (t', reply) := RegisterStep(t, req, awsConfigured, indexed, sessionToken, now);
            && indexed.Ok?
            && t'.contests == t.contests && t'.participations == t.participations
            && t'.questions == t.questions && t'.answers == t.answers
            && |t'.users| == |t.users| + 1 && t'.users[..|t.users|] == t.users
            && var u := t'.users[|t.users|];
               && u.id == reply.usuarioId == |t.users| + 1
               && u.rekognitionFaceId == Some(indexed.value.faceId) == Some(reply.faceId)
               && u.fotoRegistroUrl == indexed.value.s3Url
               && u.totalPuntos == 0 && u.activo
               && Truthy(req.nombre) && !AllWhitespace(req.nombre.value)
               && (u.email.Some? <==> Truthy(req.email))
               && (u.telefono.Some? <==> Truthy(req.telefono))
               && u.nombre == req.nombre.value && u.email == OrNull(req.email)
               && u.telefono == OrNull(req.telefono) && u.fechaRegistro == now
               && reply.nombre == u.nombre && reply.email == u.email
               && reply.expiresAt == now + RegistrationSessionDuration
  {
    TrimEmptyIffBlank(req.nombre.value);
  }

  /** Once a registration with an email succeeds, a later registration with the same
      email, a name and a photo is refused with 409. */
  lemma SecondRegistrationSameEmail(t: Tables, req: RegisterRequest, awsConfigured: bool,
                                    indexed: Result<IndexedFace, Thrown>, sessionToken: string, now: int,
                                    req2: RegisterRequest, awsConfigured2: bool)
    requires RegisterStep(t, req, awsConfigured, indexed, sessionToken, now).1.Registered?
    requires Truthy(req.email) && req2.email == req.email
    requires Truthy(req2.nombre) && !AllWhitespace(req2.nombre.value) && Truthy(req2.foto)
    ensures RegisterGuard(RegisterStep(t, req, awsConfigured, indexed, sessionToken, now).0, req2, awsConfigured2)
            == Some(RegisterFailed(409, EmailAlreadyRegistered))
  {
    var t' := RegisterStep(t, req, awsConfigured, indexed, sessionToken, now).0;
    RegisterInsertsOneUser(t, req, awsConfigured, indexed, sessionToken, now);
    assert t'.users[|t.users|].email == Some(req.email.value);
    assert EmailTaken(t'.users, req2.email.value);
    TrimEmptyIffBlank(req2.nombre.value);
  }

  /** The adapter rethrows the three Rekognition errors the handler looks for as
      errors without a code, so every failure of `indexFace` ends in a 500. */
  lemma RegisterIndexFailuresAre500(host: string, now: nat, oracle: IndexOracle)
    requires IndexFaceResult(host, RegistrationFileName(now), oracle).Err?
    ensures RegisterErrorReply(IndexFaceResult(host, RegistrationFileName(now), oracle).error).status == 500
  {
    IndexFaceErrorsLoseKnownCodes(host, RegistrationFileName(now), oracle);
  }

  /** A new user with the next id, no points and an unused (or no) email keeps the
      tables consistent: nobody has recorded points for that id yet. */
  lemma AppendUserConsistent(t: Tables, u: User)
    requires Consistent(t)
    requires u.id == |t.users| + 1 && u.totalPuntos == 0
    requires u.email.Some? ==> u.email.value != "" && !EmailTaken(t.users, u.email.value)
    ensures Consistent(t.(users := t.users + [u]))
  {
    var t' := t.(users := t.users + [u]);
    assert forall p :: p in t.participations ==> p.usuarioId != u.id;
    assert forall a :: a in t.answers ==> a.usuarioId != u.id;
    ParticipationPointsOfStranger(t.participations, u.id);
    AnswerPointsOfStranger(t.answers, u.id);
    assert Balanced(t') by {
      forall i | 0 <= i < |t'.users| ensures t'.users[i].totalPuntos == Earned(t', i + 1) {
        if i < |t.users| {
          assert t'.users[i] == t.users[i];
        }
      }
    }
    assert UniqueEmails(t');
  }

  lemma RegisterStepConsistent(t: Tables, req: RegisterRequest, awsConfigured: bool,
                               indexed: Result<IndexedFace, Thrown>, sessionToken: string, now: int)
    requires Consistent(t)
    ensures Consistent(RegisterStep(t, req, awsConfigured, indexed, sessionToken, now).0)
  {
    if RegisterGuard(t, req, awsConfigured).None? && indexed.Ok? {
      var face := indexed.value;
      var user := User(|t.users| + 1, req.nombre.value, OrNull(req.email), OrNull(req.telefono),
                       face.s3Url, Some(face.faceId), 0, true, now);
      assert RegisterStep(t, req, awsConfigured, indexed, sessionToken, now).0 == t.(users := t.users + [user]);
      AppendUserConsistent(t, user);
    } else {
      assert RegisterStep(t, req, awsConfigured, indexed, sessionToken, now).0 == t;
    }
  }

  // ---------------------------------------------------------------------------
  // POST /api/concursos/:codigo/participar
  // ---------------------------------------------------------------------------

  datatype ParticipateReply =
    | ParticipateFailed(status: nat, error: string)
    | NotRegistered(mensaje: string, detail: Option<string>)                             // 404, 'no-registrado'
    | AlreadyParticipated(nombre: string, totalPuntos: nat, fecha: int, puntosGanados: nat) // 200, 'ya-participaste'
    | Participated(nombre: string, totalPuntos: nat, puntosGanados: nat, similarity: real, mensaje: string) // 200, 'exito'

  /** `SELECT ... FROM concursos WHERE codigo_unico = ? AND activo = 1` */
  function FindActiveContest(contests: seq<Contest>, codigo: string): Option<nat>
  {
    FirstIndex(contests, (c: Contest) => c.codigoUnico == codigo && c.activo)
  }

  /** `SELECT ... FROM usuarios WHERE rekognition_face_id = ?` */
  function FindUserByFace(users: seq<User>, faceId: string): Option<nat>
  {
    FirstIndex(users, (u: User) => u.rekognitionFaceId == Some(faceId))
  }

  /** `SELECT ... FROM participaciones WHERE usuario_id = ? AND concurso_id = ?` */
  function FindParticipation(ps: seq<Participation>, uid: nat, cid: nat): Option<nat>
  {
    FirstIndex(ps, (p: Participation) => p.usuarioId == uid && p.concursoId == cid)
  }

  function WinMessage(nombre: string, puntos: nat): string
  {
    "¡Hola " + nombre + "! Ganaste " + NatToString(puntos) + " puntos"
  }

  /** The participation handler as one step over the tables, given the answer of
      searchFacesByImage for the photo. */
  function ParticipateStep(t: Tables, codigo: string, foto: Option<string>, awsConfigured: bool,
                           search: SearchResponse, now: int): (r: (Tables, ParticipateReply))
    ensures r.0.contests == t.contests && r.0.questions == t.questions && r.0.answers == t.answers
    ensures |r.0.users| == |t.users|
  {
    if !Truthy(foto) then (t, ParticipateFailed(400, PhotoRequired))
    else if !awsConfigured then (t, ParticipateFailed(503, AwsNotConfigured))
    else match FindActiveContest(t.contests, codigo)
      case None => (t, ParticipateFailed(404, ContestNotFound))
      case Some(c) =>
        var contest := t.contests[c];
        match SearchFace(search)
        case Err(_) => (t, ParticipateFailed(500, ParticipationError))
        case Ok(NotFound) =>
          (t, NotRegistered(FaceNotRecognised, Some(UserNotRegistered)))
        case Ok(Found(faceId, similarity)) =>
          match FindUserByFace(t.users, faceId)
          case None => (t, NotRegistered(UserNotInDatabase, None))
          case Some(u) =>
            var user := t.users[u];
            match FindParticipation(t.participations, user.id, contest.id)
            case Some(p) =>
              (t, AlreadyParticipated(user.nombre, user.totalPuntos,
                                      t.participations[p].fechaParticipacion, t.participations[p].puntosGanados))
            case None =>
              var nuevoTotal := user.totalPuntos + contest.puntosOtorgados;
              var row := Participation(user.id, contest.id, contest.puntosOtorgados, similarity, now);
              (t.(participations := t.participations + [row], users := Credit(t.users, u, contest.puntosOtorgados)),
               Participated(user.nombre, nuevoTotal, contest.puntosOtorgados, similarity,
                            WinMessage(user.nombre, contest.puntosOtorgados)))
  }

  /** Every reply other than a new participation leaves the tables as they were;
      an unknown or inactive code is a 404 and an unrecognised face is 'no-registrado'. */
  lemma ParticipateRejections(t: Tables, codigo: string, foto: Option<string>, awsConfigured: bool,
                              search: SearchResponse, now: int)
    ensures var (t', reply) := ParticipateStep(t, codigo, foto, awsConfigured, search, now);
            !reply.Participated? ==> t' == t
    ensures Truthy(foto) && awsConfigured && FindActiveContest(t.contests, codigo).None? ==>
              ParticipateStep(t, codigo, foto, awsConfigured, search, now).1
                == ParticipateFailed(404, ContestNotFound)
    ensures Truthy(foto) && awsConfigured && FindActiveContest(t.contests, codigo).Some?
            && SearchFace(search).Ok? && (SearchFace(search).value.NotFound?
                                          || FindUserByFace(t.users, SearchFace(search).value.faceId).None?) ==>
              ParticipateStep(t, codigo, foto, awsConfigured, search, now).1.NotRegistered?
  {
  }

  /** A new participation inserts one row for (user, contest) with the contest's
      points and the search similarity, and credits those points to that user only. */
  lemma ParticipateCredits(t: Tables, codigo: string, foto: Option<string>, awsConfigured: bool,
                           search: SearchResponse, now: int)
    requires ParticipateStep(t, codigo, foto, awsConfigured, search, now).1.Participated?
    ensures var (t', reply) := ParticipateStep(t, codigo, foto, awsConfigured, search, now);
            && FindActiveContest(t.contests, codigo).Some?
            && SearchFace(search).Ok? && SearchFace(search).value.Found?
            && FindUserByFace(t.users, SearchFace(search).value.faceId).Some?
            && var c := t.contests[FindActiveContest(t.contests, codigo).value];
               var u := FindUserByFace(t.users, SearchFace(search).value.faceId).value;
               && FindParticipation(t.participations, t.users[u].id, c.id).None?
               && t'.participations == t.participations
                    + [Participation(t.users[u].id, c.id, c.puntosOtorgados, SearchFace(search).value.similarity, now)]
               && |t'.users| == |t.users|
               && t'.users[u].totalPuntos == t.users[u].totalPuntos + c.puntosOtorgados == reply.totalPuntos
               && (forall i :: 0 <= i < |t.users| && i != u ==> t'.users[i] == t.users[i])
               && t'.contests == t.contests && t'.questions == t.questions && t'.answers == t.answers
  {
  }

  /** Repeating a successful participation finds the stored row: it answers
      'ya-participaste' with the points just earned and changes nothing. */
  lemma RepeatParticipation(t: Tables, codigo: string, foto: Option<string>, awsConfigured: bool,
                            search: SearchResponse, now: int, later: int)
    requires ParticipateStep(t, codigo, foto, awsConfigured, search, now).1.Participated?
    ensures var (t', first) := ParticipateStep(t, codigo, foto, awsConfigured, search, now);
            var (t'', second) := ParticipateStep(t', codigo, foto, awsConfigured, search, later);
            && t'' == t'
            && second == AlreadyParticipated(first.nombre, first.totalPuntos, now, first.puntosGanados)
  {
    var (t', first) := ParticipateStep(t, codigo, foto, awsConfigured, search, now);
    ParticipateCredits(t, codigo, foto, awsConfigured, search, now);
    var c := FindActiveContest(t.contests, codigo).value;
    var faceId := SearchFace(search).value.faceId;
    var u := FindUserByFace(t.users, faceId).value;
    var row := Participation(t.users[u].id, t.contests[c].id, t.contests[c].puntosOtorgados,
                             SearchFace(search).value.similarity, now);
    assert t' == t.(participations := t.participations + [row],
                    users := Credit(t.users, u, t.contests[c].puntosOtorgados));
    CreditOnlyMovesBalance(t.users, u, t.contests[c].puntosOtorgados);
    FirstIndexAt(t'.users, (v: User) => v.rekognitionFaceId == Some(faceId), u);
    var ps := t'.participations;
    FirstIndexAt(ps, (p: Participation) => p.usuarioId == t.users[u].id && p.concursoId == t.contests[c].id, |ps| - 1);
  }

  /** Crediting a user keeps every id and email, so the invariants about them hold. */
  lemma SameIdsAndEmails(t: Tables, t': Tables)
    requires IdsArePositions(t) && UniqueEmails(t)
    requires |t'.users| == |t.users| && t'.contests == t.contests && t'.questions == t.questions
    requires forall i :: 0 <= i < |t.users| ==> t'.users[i].id == t.users[i].id && t'.users[i].email == t.users[i].email
    ensures IdsArePositions(t') && UniqueEmails(t')
  {
  }

  lemma BalancedAfterParticipation(t: Tables, u: nat, row: Participation)
    requires Balanced(t) && u < |t.users| && row.usuarioId == u + 1
    ensures Balanced(t.(participations := t.participations + [row], users := Credit(t.users, u, row.puntosGanados)))
  {
    var t' := t.(participations := t.participations + [row], users := Credit(t.users, u, row.puntosGanados));
    forall i | 0 <= i < |t'.users| ensures t'.users[i].totalPuntos == Earned(t', i + 1) {
      ParticipationPointsAppend(t.participations, row, i + 1);
    }
  }

  lemma NoRepeatsAfterParticipation(t: Tables, t': Tables, row: Participation)
    requires NoRepeats(t) && FindParticipation(t.participations, row.usuarioId, row.concursoId).None?
    requires t'.participations == t.participations + [row] && t'.answers == t.answers
    ensures NoRepeats(t')
  {
    forall i | 0 <= i < |t.participations|
      ensures t'.participations[i].usuarioId != row.usuarioId || t'.participations[i].concursoId != row.concursoId
    {
      assert t'.participations[i] == t.participations[i];
    }
  }

  /** Recording one new participation and crediting its points keeps the tables
      consistent. */
  lemma AppendParticipationConsistent(t: Tables, u: nat, c: nat, row: Participation)
    requires Consistent(t)
    requires u < |t.users| && c < |t.contests|
    requires row.usuarioId == t.users[u].id && row.concursoId == t.contests[c].id
    requires FindParticipation(t.participations, row.usuarioId, row.concursoId).None?
    ensures Consistent(t.(participations := t.participations + [row], users := Credit(t.users, u, row.puntosGanados)))
  {
    var t' := t.(participations := t.participations + [row], users := Credit(t.users, u, row.puntosGanados));
    assert row.usuarioId == u + 1 && row.concursoId == c + 1;
    assert References(t');
    CreditOnlyMovesBalance(t.users, u, row.puntosGanados);
    NoRepeatsAfterParticipation(t, t', row);
    BalancedAfterParticipation(t, u, row);
    SameIdsAndEmails(t, t');
  }

  /** The contest, user and row a participation inserts, when it inserts one. */
  function NewParticipation(t: Tables, codigo: string, foto: Option<string>, awsConfigured: bool,
                            search: SearchResponse, now: int): Option<(nat, nat, Participation)>
  {
    if Truthy(foto) && awsConfigured && FindActiveContest(t.contests, codigo).Some?
       && SearchFace(search).Ok? && SearchFace(search).value.Found?
       && FindUserByFace(t.users, SearchFace(search).value.faceId).Some?
    then
      var c := FindActiveContest(t.contests, codigo).value;
      var u := FindUserByFace(t.users, SearchFace(search).value.faceId).value;
      if FindParticipation(t.participations, t.users[u].id, t.contests[c].id).None?
      then Some((u, c, Participation(t.users[u].id, t.contests[c].id, t.contests[c].puntosOtorgados,
                                  SearchFace(search).value.similarity, now)))
      else None
    else None
  }

  lemma ParticipateStepTables(t: Tables, codigo: string, foto: Option<string>, awsConfigured: bool,
                              search: SearchResponse, now: int)
    ensures var t' := ParticipateStep(t, codigo, foto, awsConfigured, search, now).0;
            match NewParticipation(t, codigo, foto, awsConfigured, search, now)
            case None => t' == t
            case Some((u, c, row)) =>
              && u < |t.users| && c < |t.contests|
              && row.usuarioId == t.users[u].id && row.concursoId == t.contests[c].id
              && FindParticipation(t.participations, row.usuarioId, row.concursoId).None?
              && t' == t.(participations := t.participations + [row],
                          users := Credit(t.users, u, row.puntosGanados))
  {
  }

  lemma ParticipateStepConsistent(t: Tables, codigo: string, foto: Option<string>, awsConfigured: bool,
                                  search: SearchResponse, now: int)
    requires Consistent(t)
    ensures Consistent(ParticipateStep(t, codigo, foto, awsConfigured, search, now).0)
  {
    ParticipateStepTables(t, codigo, foto, awsConfigured, search, now);
    match NewParticipation(t, codigo, foto, awsConfigured, search, now)
    case None =>
    case Some((u, c, row)) =>
      AppendParticipationConsistent(t, u, c, row);
  }

  // ---------------------------------------------------------------------------
  // POST /api/preguntas/responder
  // ---------------------------------------------------------------------------

  datatype AnswerReply =
    | AnswerFailed(status: nat, error: string)
    | Answered(esCorrecta: bool, respuestaCorrecta: string, puntosGanados: nat, totalPuntos: nat, mensaje: string) // 200

  /** An id taken from the request body as a condition: missing and 0 are falsy. */
  predicate TruthyId(x: Option<int>)
  {
    x.Some? && x.value != 0
  }

  predicate HasAnswered(rs: seq<Answer>, uid: nat, qid: nat)
  {
    exists i :: 0 <= i < |rs| && rs[i].usuarioId == uid && rs[i].preguntaId == qid
  }

  function AnswerMessage(esCorrecta: bool, puntos: nat, respuestaCorrecta: string): string
  {
    if esCorrecta then "¡Correcto! Ganaste " + NatToString(puntos) + " puntos"
    else "Incorrecto. La respuesta correcta era " + respuestaCorrecta
  }

  /** The answer handler as one step over the tables. */
  function AnswerStep(t: Tables, usuarioId: Option<int>, preguntaId: Option<int>,
                      respuesta: Option<string>): (r: (Tables, AnswerReply))
    ensures r.0.contests == t.contests && r.0.participations == t.participations && r.0.questions == t.questions
    ensures |r.0.users| == |t.users|
  {
    if !TruthyId(usuarioId) || !TruthyId(preguntaId) || !Truthy(respuesta) then
      (t, AnswerFailed(400, MissingParameters))
    else if ToUpper(respuesta.value) !in Choices then
      (t, AnswerFailed(400, InvalidChoice))
    else match FirstIndex(t.users, (u: User) => u.id == usuarioId.value)
      case None => (t, AnswerFailed(404, UserNotFound))
      case Some(u) =>
        match FirstIndex(t.questions, (q: Question) => q.id == preguntaId.value && q.activo)
        case None => (t, AnswerFailed(404, QuestionNotFound))
        case Some(q) =>
          var user := t.users[u];
          var question := t.questions[q];
          if HasAnswered(t.answers, user.id, question.id) then
            (t, AnswerFailed(409, AlreadyAnswered))
          else
            var selected := ToUpper(respuesta.value);
            var esCorrecta := selected == question.respuestaCorrecta;
            var puntosGanados := if esCorrecta then question.puntos else 0;
            var row := Answer(user.id, question.id, selected, esCorrecta, puntosGanados);
            var nuevoTotal := if esCorrecta then user.totalPuntos + puntosGanados else user.totalPuntos;
            var users' := if esCorrecta then Credit(t.users, u, puntosGanados) else t.users;
            (t.(answers := t.answers + [row], users := users'),
             Answered(esCorrecta, question.respuestaCorrecta, puntosGanados, nuevoTotal,
                      AnswerMessage(esCorrecta, puntosGanados, question.respuestaCorrecta)))
  }

  /** The body carries a truthy user id, question id and answer. */
  predicate AnswerParamsPresent(usuarioId: Option<int>, preguntaId: Option<int>, respuesta: Option<string>)
  {
    TruthyId(usuarioId) && TruthyId(preguntaId) && Truthy(respuesta)
  }

  predicate UserExists(users: seq<User>, id: int)
  {
    exists i :: 0 <= i < |users| && users[i].id == id
  }

  predicate ActiveQuestionExists(questions: seq<Question>, id: int)
  {
    exists j :: 0 <= j < |questions| && questions[j].id == id && questions[j].activo
  }

  /** Rejections write nothing: missing parameters and answers other than A-D in
      any case are 400, unknown users and unknown or inactive questions 404, and a
      second answer to the same question 409. */
  lemma AnswerRejections(t: Tables, usuarioId: Option<int>, preguntaId: Option<int>, respuesta: Option<string>)
    ensures var (t', reply) := AnswerStep(t, usuarioId, preguntaId, respuesta);
            && (reply.AnswerFailed? ==> t' == t && reply.status in {400, 404, 409})
            && (reply.Answered? <==>
                  && TruthyId(usuarioId) && TruthyId(preguntaId) && Truthy(respuesta)
                  && ToUpper(respuesta.value) in Choices
                  && (exists i :: 0 <= i < |t.users| && t.users[i].id == usuarioId.value)
                  && (exists j :: 0 <= j < |t.questions| && t.questions[j].id == preguntaId.value && t.questions[j].activo)
                  && !HasAnswered(t.answers, usuarioId.value, preguntaId.value))
    ensures var reply := AnswerStep(t, usuarioId, preguntaId, respuesta).1;
            && (!AnswerParamsPresent(usuarioId, preguntaId, respuesta) ==>
                  reply == AnswerFailed(400, MissingParameters))
            && (AnswerParamsPresent(usuarioId, preguntaId, respuesta) && ToUpper(respuesta.value) !in Choices ==>
                  reply == AnswerFailed(400, InvalidChoice))
            && (AnswerParamsPresent(usuarioId, preguntaId, respuesta) && ToUpper(respuesta.value) in Choices ==>
                  && (!UserExists(t.users, usuarioId.value) ==> reply == AnswerFailed(404, UserNotFound))
                  && (UserExists(t.users, usuarioId.value) && !ActiveQuestionExists(t.questions, preguntaId.value) ==>
                        reply == AnswerFailed(404, QuestionNotFound))
                  && (UserExists(t.users, usuarioId.value) && ActiveQuestionExists(t.questions, preguntaId.value)
                      && HasAnswered(t.answers, usuarioId.value, preguntaId.value) ==>
                        reply == AnswerFailed(409, AlreadyAnswered)))
  {
    var (t', reply) := AnswerStep(t, usuarioId, preguntaId, respuesta);
    if TruthyId(usuarioId) && TruthyId(preguntaId) && Truthy(respuesta) && ToUpper(respuesta.value) in Choices {
      var u := FirstIndex(t.users, (u: User) => u.id == usuarioId.value);
      var q := FirstIndex(t.questions, (q: Question) => q.id == preguntaId.value && q.activo);
      if u.None? {
        assert !exists i :: 0 <= i < |t.users| && t.users[i].id == usuarioId.value;
      } else if q.None? {
        assert !exists j :: 0 <= j < |t.questions| && t.questions[j].id == preguntaId.value && t.questions[j].activo;
      }
    }
  }

  /** A valid answer is stored upper-cased; it is correct exactly when it equals the
      stored correct option, earns the question's points when correct and 0
      otherwise, and only a correct answer moves the balance. */
  lemma AnswerCredits(t: Tables, usuarioId: Option<int>, preguntaId: Option<int>, respuesta: Option<string>)
    requires AnswerStep(t, usuarioId, preguntaId, respuesta).1.Answered?
    ensures var (t', reply) := AnswerStep(t, usuarioId, preguntaId, respuesta);
            var u := FirstIndex(t.users, (u: User) => u.id == usuarioId.value).value;
            var q := t.questions[FirstIndex(t.questions, (q: Question) => q.id == preguntaId.value && q.activo).value];
            && t'.answers == t.answers + [Answer(t.users[u].id, q.id, ToUpper(respuesta.value), reply.esCorrecta, reply.puntosGanados)]
            && (reply.esCorrecta <==> ToUpper(respuesta.value) == q.respuestaCorrecta)
            && reply.puntosGanados == (if reply.esCorrecta then q.puntos else 0)
            && |t'.users| == |t.users|
            && t'.users[u].totalPuntos == t.users[u].totalPuntos + reply.puntosGanados == reply.totalPuntos
            && (!reply.esCorrecta ==> t'.users == t.users)
            && (forall i :: 0 <= i < |t.users| && i != u ==> t'.users[i] == t.users[i])
            && t'.contests == t.contests && t'.participations == t.participations && t'.questions == t.questions
  {
  }

  /** A question answered once is refused the second time, whatever is answered. */
  lemma RepeatAnswer(t: Tables, usuarioId: Option<int>, preguntaId: Option<int>,
                     respuesta: Option<string>, again: Option<string>)
    requires AnswerStep(t, usuarioId, preguntaId, respuesta).1.Answered?
    requires Truthy(again) && ToUpper(again.value) in Choices
    ensures var t' := AnswerStep(t, usuarioId, preguntaId, respuesta).0;
            AnswerStep(t', usuarioId, preguntaId, again)
              == (t', AnswerFailed(409, AlreadyAnswered))
  {
    var t' := AnswerStep(t, usuarioId, preguntaId, respuesta).0;
    var u := FirstIndex(t.users, (u: User) => u.id == usuarioId.value).value;
    var q := FirstIndex(t.questions, (q: Question) => q.id == preguntaId.value && q.activo).value;
    assert forall j :: 0 <= j <= u ==> t'.users[j].id == t.users[j].id;
    assert FirstIndex(t'.users, (u: User) => u.id == usuarioId.value) == Some(u);
    assert FirstIndex(t'.questions, (q: Question) => q.id == preguntaId.value && q.activo) == Some(q);
    var last := |t'.answers| - 1;
    assert t'.answers[last].usuarioId == t.users[u].id && t'.answers[last].preguntaId == t.questions[q].id;
    assert HasAnswered(t'.answers, t.users[u].id, t.questions[q].id);
  }

  lemma BalancedAfterAnswer(t: Tables, u: nat, row: Answer)
    requires Balanced(t) && u < |t.users| && row.usuarioId == u + 1
    ensures Balanced(t.(answers := t.answers + [row], users := Credit(t.users, u, row.puntosGanados)))
  {
    var t' := t.(answers := t.answers + [row], users := Credit(t.users, u, row.puntosGanados));
    forall i | 0 <= i < |t'.users| ensures t'.users[i].totalPuntos == Earned(t', i + 1) {
      AnswerPointsAppend(t.answers, row, i + 1);
    }
  }

  lemma NoRepeatsAfterAnswer(t: Tables, t': Tables, row: Answer)
    requires NoRepeats(t) && !HasAnswered(t.answers, row.usuarioId, row.preguntaId)
    requires t'.answers == t.answers + [row] && t'.participations == t.participations
    ensures NoRepeats(t')
  {
    forall i | 0 <= i < |t.answers|
      ensures t'.answers[i].usuarioId != row.usuarioId || t'.answers[i].preguntaId != row.preguntaId
    {
      assert t'.answers[i] == t.answers[i];
    }
  }

  /** Recording one new answer and crediting its points keeps the tables consistent. */
  lemma AppendAnswerConsistent(t: Tables, u: nat, row: Answer)
    requires Consistent(t)
    requires u < |t.users| && row.usuarioId == u + 1 && 1 <= row.preguntaId <= |t.questions|
    requires !HasAnswered(t.answers, row.usuarioId, row.preguntaId)
    requires row.respuestaSeleccionada in Choices && (!row.esCorrecta ==> row.puntosGanados == 0)
    ensures Consistent(t.(answers := t.answers + [row], users := Credit(t.users, u, row.puntosGanados)))
  {
    var t' := t.(answers := t.answers + [row], users := Credit(t.users, u, row.puntosGanados));
    assert References(t');
    assert AnswersWellFormed(t');
    CreditOnlyMovesBalance(t.users, u, row.puntosGanados);
    NoRepeatsAfterAnswer(t, t', row);
    BalancedAfterAnswer(t, u, row);
    SameIdsAndEmails(t, t');
  }

  lemma AnswerStepConsistent(t: Tables, usuarioId: Option<int>, preguntaId: Option<int>, respuesta: Option<string>)
    requires Consistent(t)
    ensures Consistent(AnswerStep(t, usuarioId, preguntaId, respuesta).0)
  {
    var (t', reply) := AnswerStep(t, usuarioId, preguntaId, respuesta);
    if reply.Answered? {
      var u := FirstIndex(t.users, (u: User) => u.id == usuarioId.value).value;
      var q := FirstIndex(t.questions, (q: Question) => q.id == preguntaId.value && q.activo).value;
      var row := t'.answers[|t.answers|];
      assert t'.answers == t.answers + [row];
      AppendAnswerConsistent(t, u, row);
      if !row.esCorrecta {
        assert Credit(t.users, u, row.puntosGanados) == t.users;
      }
    }
  }

  // ---------------------------------------------------------------------------
  // GET /api/preguntas/random
  // ---------------------------------------------------------------------------

  /** The active questions, minus those the user answered when a user id is given. */
  function EligibleQuestions(questions: seq<Question>, answers: seq<Answer>, usuarioId: Option<int>): (r: seq<Question>)
    ensures forall q :: q in r <==> q in questions && q.activo
                                    && !(usuarioId.Some? && usuarioId.value >= 0 && HasAnswered(answers, usuarioId.value, q.id))
    decreases |questions|
  {
    if questions == [] then []
    else
      var q := questions[0];
      var keep := q.activo && !(usuarioId.Some? && usuarioId.value >= 0 && HasAnswered(answers, usuarioId.value, q.id));
      (if keep then [q] else []) + EligibleQuestions(questions[1..], answers, usuarioId)
  }

  /** The columns the draw selects: the question without its correct option. */
  datatype PublicQuestion = PublicQuestion(
    id: nat,
    pregunta: string,
    opcionA: string, opcionB: string, opcionC: string, opcionD: string,
    puntos: nat)

  function Public(q: Question): PublicQuestion
  {
    PublicQuestion(q.id, q.pregunta, q.opcionA, q.opcionB, q.opcionC, q.opcionD, q.puntos)
  }

  /** `ORDER BY RAND() LIMIT 1`: the random choice is the parameter `pick`. A user id
      is given when the query parameter is present and non-empty. The reply never
      carries the correct option. */
  function RandomQuestion(t: Tables, usuarioId: Option<int>, pick: nat): (r: Result<PublicQuestion, (nat, string)>)
    ensures r.Err? <==> EligibleQuestions(t.questions, t.answers, usuarioId) == []
    ensures r.Err? ==> r.error == (404, NoQuestionsAvailable)
    ensures r.Ok? ==> exists q :: q in t.questions && q.activo && Public(q) == r.value
                                  && !(usuarioId.Some? && usuarioId.value >= 0 && HasAnswered(t.answers, usuarioId.value, q.id))
  {
    var eligible := EligibleQuestions(t.questions, t.answers, usuarioId);
    if eligible == [] then Err((404, NoQuestionsAvailable))
    else
      var q := eligible[pick % |eligible|];
      assert q in eligible;
      Ok(Public(q))
  }

  /** Once answered, a question is never drawn again for that user. */
  lemma AnsweredQuestionNotDrawnAgain(t: Tables, usuarioId: Option<int>, preguntaId: Option<int>,
                                      respuesta: Option<string>, pick: nat)
    requires AnswerStep(t, usuarioId, preguntaId, respuesta).1.Answered?
    ensures var t' := AnswerStep(t, usuarioId, preguntaId, respuesta).0;
            var drawn := RandomQuestion(t', usuarioId, pick);
            drawn.Ok? ==> drawn.value.id != preguntaId.value
  {
    var t' := AnswerStep(t, usuarioId, preguntaId, respuesta).0;
    var u := FirstIndex(t.users, (u: User) => u.id == usuarioId.value).value;
    var last := |t'.answers| - 1;
    assert t'.answers[last].usuarioId == usuarioId.value && t'.answers[last].preguntaId == preguntaId.value;
    assert HasAnswered(t'.answers, usuarioId.value, preguntaId.value);
  }

  // ---------------------------------------------------------------------------
  // The store and its handlers
  // ---------------------------------------------------------------------------

  class Ledger {
    var users: seq<User>
    var contests: seq<Contest>
    var participations: seq<Participation>
    var questions: seq<Question>
    var answers: seq<Answer>
    /** The face collection and photo bucket. */
    const faces: FaceService
    /** Whether the AWS library loaded. */
    const awsConfigured: bool

    function Snapshot(): Tables
      reads this
    {
      Tables(users, contests, participations, questions, answers)
    }

    predicate Valid()
      reads this
    {
      Consistent(Snapshot()) && faces.Valid()
    }

    /** A store with the given contests and questions and no users yet. */
    constructor (faces: FaceService, awsConfigured: bool, contests: seq<Contest>, questions: seq<Question>)
      requires faces.Valid()
      requires forall i :: 0 <= i < |contests| ==> contests[i].id == i + 1
      requires forall i :: 0 <= i < |questions| ==> questions[i].id == i + 1
      ensures Valid()
      ensures Snapshot() == Tables([], contests, [], questions, [])
      ensures this.faces == faces && this.awsConfigured == awsConfigured
    {
      this.faces := faces;
      this.awsConfigured := awsConfigured;
      users := [];
      this.contests := contests;
      participations := [];
      this.questions := questions;
      answers := [];
    }

    /** POST /api/usuarios/registro */
    method Register(req: RegisterRequest, oracle: IndexOracle, sessionToken: string, now: nat)
      returns (reply: RegisterReply)
      requires Valid()
      modifies this, faces
      ensures Valid()
      ensures (Snapshot(), reply) == RegisterStep(old(Snapshot()), req, awsConfigured,
                                                 IndexFaceResult(faces.host, RegistrationFileName(now), oracle),
                                                 sessionToken, now)
      ensures RegisterGuard(old(Snapshot()), req, awsConfigured).Some? ==>
                faces.collection == old(faces.collection) && faces.bucket == old(faces.bucket)
      ensures RegisterGuard(old(Snapshot()), req, awsConfigured).None? ==>
                && faces.collection == CollectionAfterIndex(old(faces.collection), oracle)
                && faces.bucket == BucketAfterIndex(old(faces.bucket), RegistrationFileName(now), oracle)
    {
      RegisterStepConsistent(Snapshot(), req, awsConfigured,
                             IndexFaceResult(faces.host, RegistrationFileName(now), oracle), sessionToken, now);
      var guard := RegisterGuard(Snapshot(), req, awsConfigured);
      if guard.Some? {
        return guard.value;
      }
      var indexed := faces.IndexFace(RegistrationFileName(now), oracle);
      if indexed.Err? {
        return RegisterErrorReply(indexed.error);
      }
      var user := User(|users| + 1, req.nombre.value, OrNull(req.email), OrNull(req.telefono),
                       indexed.value.s3Url, Some(indexed.value.faceId), 0, true, now);
      users := users + [user];
      reply := Registered(user.id, req.nombre.value, OrNull(req.email), indexed.value.faceId, sessionToken,
                          now + RegistrationSessionDuration);
    }

    /** POST /api/concursos/:codigo/participar */
    method Participate(codigo: string, foto: Option<string>, search: SearchResponse, now: int)
      returns (reply: ParticipateReply)
      requires Valid()
      modifies this
      ensures Valid()
      ensures (Snapshot(), reply) == ParticipateStep(old(Snapshot()), codigo, foto, awsConfigured, search, now)
    {
      ghost var before := Snapshot();
      if !Truthy(foto) {
        reply := ParticipateFailed(400, PhotoRequired);
      } else if !awsConfigured {
        reply := ParticipateFailed(503, AwsNotConfigured);
      } else {
        var c := FindActiveContest(contests, codigo);
        var found := SearchFace(search);
        if c.None? {
          reply := ParticipateFailed(404, ContestNotFound);
        } else if found.Err? {
          reply := ParticipateFailed(500, ParticipationError);
        } else if found.value.NotFound? {
          reply := NotRegistered(FaceNotRecognised, Some(UserNotRegistered));
        } else {
          var contest := contests[c.value];
          var u := FindUserByFace(users, found.value.faceId);
          if u.None? {
            reply := NotRegistered(UserNotInDatabase, None);
          } else {
            var user := users[u.value];
            var previous := FindParticipation(participations, user.id, contest.id);
            if previous.Some? {
              var row := participations[previous.value];
              reply := AlreadyParticipated(user.nombre, user.totalPuntos, row.fechaParticipacion, row.puntosGanados);
            } else {
              participations := participations
                + [Participation(user.id, contest.id, contest.puntosOtorgados, found.value.similarity, now)];
              var nuevoTotal := user.totalPuntos + contest.puntosOtorgados;
              users := Credit(users, u.value, contest.puntosOtorgados);
              reply := Participated(user.nombre, nuevoTotal, contest.puntosOtorgados, found.value.similarity,
                                    WinMessage(user.nombre, contest.puntosOtorgados));
            }
          }
        }
      }
      assert (Snapshot(), reply) == ParticipateStep(before, codigo, foto, awsConfigured, search, now);
      ParticipateStepConsistent(before, codigo, foto, awsConfigured, search, now);
    }

    /** POST /api/preguntas/responder */
    method AnswerQuestion(usuarioId: Option<int>, preguntaId: Option<int>, respuesta: Option<string>)
      returns (reply: AnswerReply)
      requires Valid()
      modifies this
      ensures Valid()
      ensures (Snapshot(), reply) == AnswerStep(old(Snapshot()), usuarioId, preguntaId, respuesta)
    {
      ghost var before := Snapshot();
      if !TruthyId(usuarioId) || !TruthyId(preguntaId) || !Truthy(respuesta) {
        reply := AnswerFailed(400, MissingParameters);
      } else if ToUpper(respuesta.value) !in Choices {
        reply := AnswerFailed(400, InvalidChoice);
      } else {
        var selected := ToUpper(respuesta.value);
        var u := FirstIndex(users, (u: User) => u.id == usuarioId.value);
        var q := FirstIndex(questions, (q: Question) => q.id == preguntaId.value && q.activo);
        if u.None? {
          reply := AnswerFailed(404, UserNotFound);
        } else if q.None? {
          reply := AnswerFailed(404, QuestionNotFound);
        } else {
          var user := users[u.value];
          var question := questions[q.value];
          if HasAnswered(answers, user.id, question.id) {
            reply := AnswerFailed(409, AlreadyAnswered);
          } else {
            var esCorrecta := selected == question.respuestaCorrecta;
            var puntosGanados := if esCorrecta then question.puntos else 0;
            answers := answers + [Answer(user.id, question.id, selected, esCorrecta, puntosGanados)];
            var nuevoTotal := user.totalPuntos;
            if esCorrecta {
              nuevoTotal := user.totalPuntos + puntosGanados;
              users := Credit(users, u.value, puntosGanados);
            }
            reply := Answered(esCorrecta, question.respuestaCorrecta, puntosGanados, nuevoTotal,
                              AnswerMessage(esCorrecta, puntosGanados, question.respuestaCorrecta));
          }
        }
      }
      assert (Snapshot(), reply) == AnswerStep(before, usuarioId, preguntaId, respuesta);
      AnswerStepConsistent(before, usuarioId, preguntaId, respuesta);
    }
  }
}
