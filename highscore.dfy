/** The highscore file behind the /api/highscore and /api/submit routes. */
module Highscore {
  import opened Wrappers
  import Text
  import Numerals

  function Max(a: int, b: int): int
  {
    if a >= b then a else b
  }

  /**
   * _load_highscore: the stored text (None when the file is missing or cannot be read)
   * read with int(text.strip()); anything that does not parse reads as 0.
   */
  function Load(file: Option<string>): int
  {
    if file.None? then 0
    else match Numerals.ParseInt(Text.Strip(file.value))
      case Some(n) => n
      case None => 0
  }

  /** A saved score reads back as itself. */
  lemma LoadShow(n: int)
    ensures Load(Some(Numerals.Show(n))) == n
  {
    Numerals.StripShow(n);
    Numerals.ParseShow(n);
  }

  /** A JSON value given as the "score" field. */
  datatype ScoreValue =
    | Null
    | Bool(b: bool)
    | Int(n: int)
    | Float(r: real)    // a finite JSON number with a fraction or an exponent
    | Str(t: string)
    | Container         // a list or an object

  /**
   * What request.get_json(silent=True) returns: nothing (no JSON body, or one that does
   * not parse), an object with or without a "score" key, or some other JSON value, which
   * `or {}` replaces by {} when it is falsy.
   */
  datatype Body =
    | NoJson
    | Object(score: Option<ScoreValue>)
    | NonObject(falsy: bool)

  /** int(r) for a float: the integer part, truncated toward zero. */
  function Truncate(r: real): (t: int)
    ensures r >= 0.0 ==> t as real <= r < t as real + 1.0
    ensures r < 0.0 ==> t as real - 1.0 < r <= t as real
  {
    if r >= 0.0 then r.Floor else -((-r).Floor)
  }

  /** int(v): None when it raises (TypeError for null and containers, ValueError for bad text). */
  function IntOf(v: ScoreValue): Option<int>
  {
    match v
    case Null => None
    case Bool(b) => Some(if b then 1 else 0)
    case Int(n) => Some(n)
    case Float(r) => Some(Truncate(r))
    case Str(t) => Numerals.ParseInt(t)
    case Container => None
  }

  /**
   * int(data.get('score', 0)) with data = request.get_json(silent=True) or {}; None when
   * the request fails (data.get on a truthy non-object raises AttributeError, or int() raises).
   */
  function ScoreOf(body: Body): Option<int>
  {
    match body
    case NoJson => Some(0)
    case NonObject(falsy) => if falsy then Some(0) else None
    case Object(score) => if score.None? then Some(0) else IntOf(score.value)
  }

  /** The score of a request: 0 without one, the field converted by int() otherwise. */
  lemma ScoreOfSpec(body: Body)
    ensures body.NoJson? || (body.NonObject? && body.falsy) || (body.Object? && body.score.None?) ==> ScoreOf(body) == Some(0)
    ensures body.NonObject? && !body.falsy ==> ScoreOf(body).None?
    ensures body == Object(Some(Bool(true))) ==> ScoreOf(body) == Some(1)
    ensures body == Object(Some(Float(3.7))) ==> ScoreOf(body) == Some(3)
    ensures body == Object(Some(Float(-2.5))) ==> ScoreOf(body) == Some(-2)
    ensures body == Object(Some(Str("42"))) ==> ScoreOf(body) == Some(42)
    ensures body == Object(Some(Null)) || body == Object(Some(Container)) ==> ScoreOf(body).None?
  {
    if body == Object(Some(Str("42"))) {
      assert "42" == Numerals.Show(42) by {
        assert Numerals.Decimal(42) == Numerals.Decimal(4) + [Numerals.DigitChar(2)];
      }
      Numerals.ParseShow(42);
    }
  }

  /** A score written in Arabic-Indic digits ("٤٢") is converted as 42, as int() does. */
  lemma OtherDigitsScore()
    ensures ScoreOf(Object(Some(Str(['\U{0664}', '\U{0662}'])))) == Some(42)
  {
    Numerals.ParseOtherDigits();
  }

  /**
   * submit_score for a converted score: the file afterwards and the highscore replied.
   * The file is rewritten only for a score above the current one.
   */
  function Submit(file: Option<string>, score: int): (r: (Option<string>, int))
    ensures r.1 == Max(Load(file), score)
    ensures Load(r.0) == r.1
    ensures r.0 == file || score > Load(file)
  {
    var current := Load(file);
    if score > current then
      LoadShow(score);
      (Some(Numerals.Show(score)), score)
    else (file, current)
  }

  /** The file after each score of the sequence was submitted in turn. */
  function SubmitAll(file: Option<string>, scores: seq<int>): Option<string>
  {
    if scores == [] then file else Submit(SubmitAll(file, scores[..|scores| - 1]), scores[|scores| - 1]).0
  }

  function MaxOf(h: int, scores: seq<int>): int
  {
    if scores == [] then h else Max(MaxOf(h, scores[..|scores| - 1]), scores[|scores| - 1])
  }

  /** The stored highscore is the running maximum of the submissions, so it never decreases. */
  lemma {:induction false} RunningMaximum(file: Option<string>, scores: seq<int>)
    ensures Load(SubmitAll(file, scores)) == MaxOf(Load(file), scores)
    ensures Load(SubmitAll(file, scores)) >= Load(file)
    ensures forall i :: 0 <= i < |scores| ==> Load(SubmitAll(file, scores)) >= scores[i]
  {
    if scores != [] {
      var init := scores[..|scores| - 1];
      RunningMaximum(file, init);
      assert forall i :: 0 <= i < |init| ==> scores[i] == init[i];
    }
  }

  /** After the startup reset the highscore is the largest of 0 and the submissions, so never negative. */
  lemma AfterReset(scores: seq<int>)
    ensures Load(SubmitAll(Some("0"), scores)) == MaxOf(0, scores)
    ensures Load(SubmitAll(Some("0"), scores)) >= 0
  {
    assert Numerals.Show(0) == "0";
    LoadShow(0);
    RunningMaximum(Some("0"), scores);
  }

  /** The file highscore.txt; None stands for a file that is missing or cannot be read. */
  class HighscoreFile {
    var file: Option<string>

    constructor (file: Option<string>)
      ensures this.file == file
    {
      this.file := file;
    }

    function Current(): int
      reads this
    {
      Load(file)
    }

    /** get_highscore. */
    method GetHighscore() returns (h: int)
      ensures h == Load(file)
    {
      h := Load(file);
    }

    /**
     * submit_score: None when the request fails (status 500, nothing written); otherwise the
     * highscore replied, which is the larger of the stored value and the score.
     */
    method SubmitScore(body: Body) returns (reply: Option<int>)
      modifies this
      ensures ScoreOf(body).None? ==> reply.None? && file == old(file)
      ensures ScoreOf(body).Some? ==>
        var score := ScoreOf(body).value;
        && reply == Some(Max(old(Current()), score))
        && Current() == reply.value
        && (file == old(file) || (score > old(Current()) && file == Some(Numerals.Show(score))))
    {
      var score := ScoreOf(body);
      if score.None? {
        reply := None;
        return;
      }
      var current := GetHighscore();
      if score.value > current {
        file := Some(Numerals.Show(score.value));
        LoadShow(score.value);
        current := score.value;
      }
      reply := Some(current);
    }

    /** _save_highscore(0), run when the server starts. */
    method Reset()
      modifies this
      ensures file == Some("0") && Current() == 0
    {
      file := Some(Numerals.Show(0));
      LoadShow(0);
    }
  }
}
