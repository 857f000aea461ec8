/**
 * The Recruitment entity: a small state machine over its progress, a validated
 * closing date, and an ordered list of sections it owns through their
 * back-references.
 */
module RecruitmentDomain {
  import opened Exceptions

  datatype Progress = Ready | InProgress | Announced | Completion

  /** A LocalDateTime, as an integer count of time units. */
  type Timestamp = int

  /** The publishing Administrator, by identity. */
  type AdministratorId = int

  /** A section of the form; `recruitment` is its back-reference to the owning Recruitment. */
  class Section {
    var name: string
    var recruitment: Recruitment?

    constructor (name: string)
      ensures this.name == name && recruitment == null
    {
      this.name := name;
      recruitment := null;
    }

    method UpdateRecruitment(recruitment: Recruitment)
      modifies this`recruitment
      ensures this.recruitment == recruitment
    {
      this.recruitment := recruitment;
    }
  }

  /** The persistent fields of a Recruitment, as one value. */
  datatype RecruitmentState = RecruitmentState(
    id: int,
    code: string,
    title: string,
    description: string,
    progress: Progress,
    closingDate: Timestamp,
    publisher: AdministratorId,
    sections: seq<Section>)

  /** `validateClosingDate`: a closing date strictly before now (`isBefore`) is refused. */
  function ValidateClosingDate(closingDate: Timestamp, now: Timestamp): (r: Outcome)
    ensures r.Fail? <==> closingDate < now
    ensures r.Fail? ==> r.error == InvalidClosingDate
  {
    if closingDate < now then Fail(InvalidClosingDate) else Pass
  }

  class Recruitment {
    var id: int
    var code: string
    var title: string
    var description: string
    var progress: Progress
    var closingDate: Timestamp
    var publisher: AdministratorId
    var sections: seq<Section>

    /** Every section in the list points back at this recruitment. */
    ghost predicate OwnsSections()
      reads this, sections
    {
      forall s :: s in sections ==> s.recruitment == this
    }

    function State(): RecruitmentState
      reads this
    {
      RecruitmentState(id, code, title, description, progress, closingDate, publisher, sections)
    }

    /** Field initialisation of the constructor, before its sections are added. */
    constructor Init(id: int, code: string, title: string, description: string,
                     closingDate: Timestamp, publisher: AdministratorId)
      ensures this.id == id && this.code == code && this.title == title
      ensures this.description == description && this.closingDate == closingDate
      ensures this.publisher == publisher && progress == Ready && sections == []
    {
      this.id := id;
      this.code := code;
      this.title := title;
      this.description := description;
      this.closingDate := closingDate;
      this.publisher := publisher;
      this.progress := Ready;
      this.sections := [];
    }

    /**
     * The public constructor: refuses a closing date before now, otherwise builds a
     * READY recruitment from the given fields and takes ownership of the sections.
     */
    static method Create(id: int, code: string, title: string, description: string,
                         closingDate: Timestamp, publisher: AdministratorId,
                         sections: seq<Section>, now: Timestamp)
      returns (res: Result<Recruitment>)
      modifies set s | s in sections
      ensures res.Err? <==> closingDate < now
      ensures res.Err? ==> res.error == InvalidClosingDate && unchanged(set s | s in sections)
      ensures res.Ok? ==> fresh(res.value)
      ensures res.Ok? ==>
                res.value.State() == RecruitmentState(id, code, title, description, Ready, closingDate, publisher, sections)
      ensures res.Ok? ==> res.value.OwnsSections()
      ensures res.Ok? ==> forall s :: s in sections ==> s.name == old(s.name)
    {
      var valid := ValidateClosingDate(closingDate, now);
      if valid.Fail? {
        return Err(valid.error);
      }
      var r := new Recruitment.Init(id, code, title, description, closingDate, publisher);
      r.AddSections(sections);
      return Ok(r);
    }

    /**
     * Points every added section at this recruitment, then appends them in order
     * after the existing ones.
     */
    method AddSections(added: seq<Section>)
      modifies this`sections, set s | s in added
      ensures sections == old(sections) + added
      ensures forall s :: s in added ==> s.recruitment == this
      ensures forall s :: s in added ==> s.name == old(s.name)
      ensures old(OwnsSections()) ==> OwnsSections()
    {
      var i := 0;
      while i < |added|
        invariant 0 <= i <= |added|
        invariant sections == old(sections)
        invariant forall j :: 0 <= j < i ==> added[j].recruitment == this
        invariant forall s :: s in added ==> s.name == old(s.name)
        invariant forall s :: s in old(sections) && s !in added ==> s.recruitment == old(s.recruitment)
      {
        added[i].UpdateRecruitment(this);
        i := i + 1;
      }
      sections := sections + added;
    }

    method Start()
      modifies this`progress
      ensures progress == InProgress
      ensures !IsAnnounced()
    {
      progress := InProgress;
    }

    method Announce()
      modifies this`progress
      ensures progress == Announced
      ensures IsAnnounced()
    {
      progress := Announced;
    }

    /** Sets the closing date unless it lies before now; a refused date changes nothing. */
    method UpdateClosingDate(closingDate: Timestamp, now: Timestamp) returns (res: Outcome)
      modifies this`closingDate
      ensures res == (if closingDate < now then Fail(InvalidClosingDate) else Pass)
      ensures this.closingDate == if res.Pass? then closingDate else old(this.closingDate)
    {
      res := ValidateClosingDate(closingDate, now);
      if res.Pass? {
        this.closingDate := closingDate;
      }
    }

    /** `isAnnounced`: the guard reads the same progress that a save persists. */
    predicate IsAnnounced()
      reads this
      ensures IsAnnounced() <==> State().progress == Announced
    {
      progress == Announced
    }
  }
}
