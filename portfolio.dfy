/**
 * The `Portfolio` page component as an object: its React state becomes the
 * fields of a class and each event handler a method that updates them.
 */
module Portfolio {
  import opened Wrappers
  import opened Sections
  import opened ContactForm

  /** One intersection-observer entry: the observed element's id and whether it intersects. */
  datatype IntersectionEntry = IntersectionEntry(targetId: string, isIntersecting: bool)

  /** The ids of the intersecting entries of one observer callback. */
  function Revealed(entries: seq<IntersectionEntry>): (r: set<string>)
    ensures forall id :: id in r <==>
              exists i :: 0 <= i < |entries| && entries[i].isIntersecting && entries[i].targetId == id
    decreases |entries|
  {
    if |entries| == 0 then {}
    else
      var init := entries[..|entries| - 1];
      var last := entries[|entries| - 1];
      assert forall i :: 0 <= i < |init| ==> init[i] == entries[i];
      Revealed(init) + (if last.isIntersecting then {last.targetId} else {})
  }

  /** The ids whose lookup found an element. */
  function FoundIds(layout: Layout): (r: set<string>)
    ensures forall id :: id in r <==>
              exists i :: 0 <= i < |layout| && layout[i].box.Some? && layout[i].id == id
    decreases |layout|
  {
    if |layout| == 0 then {}
    else
      var init := layout[..|layout| - 1];
      var last := layout[|layout| - 1];
      assert forall i :: 0 <= i < |init| ==> init[i] == layout[i];
      FoundIds(init) + (if last.box.Some? then {last.id} else {})
  }

  class PortfolioPage {
    /** `activeSection`: the section highlighted in the navigation bar. */
    var activeSection: string
    /** `visibleSections`: the sections that have ever been seen intersecting. */
    var visibleSections: set<string>
    /** `formData`: the contact form's fields. */
    var formData: FormData
    /** `isSubmitting`: a simulated submission is in progress. */
    var isSubmitting: bool
    /** The ids of the elements the intersection observer has been asked to observe. */
    var observed: set<string>

    /** Only section ids are ever active, observed or revealed, and only observed ids are revealed. */
    ghost predicate Valid()
      reads this
    {
      activeSection in SectionIds &&
      (forall id :: id in observed ==> id in SectionIds) &&
      visibleSections <= observed
    }

    /** The initial state of the component. */
    constructor ()
      ensures Valid()
      ensures activeSection == InitialSection
      ensures visibleSections == {} && observed == {}
      ensures formData == EmptyForm && !isSubmitting
    {
      activeSection := InitialSection;
      visibleSections := {};
      formData := EmptyForm;
      isSubmitting := false;
      observed := {};
    }

    /** The mount effect: observe every section element that exists. */
    method ObserveSections(layout: Layout)
      requires Valid() && IsPageLayout(layout)
      modifies this`observed
      ensures Valid()
      ensures observed == old(observed) + FoundIds(layout)
    {
      for i := 0 to |layout|
        invariant observed == old(observed) + FoundIds(layout[..i])
        invariant Valid()
      {
        assert layout[..i + 1][..i] == layout[..i];
        assert layout[i].id in SectionIds;
        if layout[i].box.Some? {
          observed := observed + {layout[i].id};
        }
      }
      assert layout[..|layout|] == layout;
    }

    /** The observer callback: each intersecting entry's target joins `visibleSections`. */
    method OnIntersect(entries: seq<IntersectionEntry>)
      requires Valid()
      requires forall i :: 0 <= i < |entries| ==> entries[i].targetId in observed
      modifies this`visibleSections
      ensures Valid()
      ensures visibleSections == old(visibleSections) + Revealed(entries)
      ensures old(visibleSections) <= visibleSections
    {
      for i := 0 to |entries|
        invariant visibleSections == old(visibleSections) + Revealed(entries[..i])
        invariant Valid()
      {
        assert entries[..i + 1][..i] == entries[..i];
        if entries[i].isIntersecting {
          visibleSections := visibleSections + {entries[i].targetId};
        }
      }
      assert entries[..|entries|] == entries;
    }

    /** `handleScroll`: scan the sections in order and activate the first that contains the reference point. */
    method HandleScroll(layout: Layout, scrollY: int)
      requires Valid() && IsPageLayout(layout)
      modifies this`activeSection
      ensures Valid()
      ensures activeSection == ActiveAfterScroll(old(activeSection), layout, scrollY)
    {
      var scrollPosition := scrollY + ScrollOffset;
      for i := 0 to |layout|
        invariant forall j :: 0 <= j < i ==> !Contains(layout[j], scrollPosition)
        invariant activeSection == old(activeSection)
      {
        match layout[i].box
        case Some(b) =>
          if scrollPosition >= b.top && scrollPosition < b.top + b.height {
            activeSection := layout[i].id;
            FirstMatchIsFirst(layout, scrollPosition, i);
            break;
          }
        case None =>
      }
    }

    /** `scrollToSection`: the top the viewport is asked to scroll to, or `None` when no element has the id. */
    method ScrollToSection(layout: Layout, sectionId: string) returns (request: Option<int>)
      ensures request.Some? <==> GetElementById(layout, sectionId).Some?
      ensures request.Some? ==> request.value == GetElementById(layout, sectionId).value.top
    {
      var element := GetElementById(layout, sectionId);
      match element
      case Some(b) => request := Some(b.top);
      case None => request := None;
    }

    /** A navigation button's click: `scrollToSection` with the i-th section id. */
    method ClickNavLink(layout: Layout, i: nat) returns (request: Option<int>)
      requires IsPageLayout(layout) && i < |SectionIds|
      ensures request.Some? <==> layout[i].box.Some?
      ensures request.Some? ==> request.value == layout[i].box.value.top
    {
      GetElementByIdOnPage(layout, i);
      request := ScrollToSection(layout, SectionIds[i]);
    }

    /** `handleInputChange`: field `f` takes `value`; the other fields are kept. */
    method HandleInputChange(f: Field, value: string)
      modifies this`formData
      ensures formData == WithField(old(formData), f, value)
    {
      formData := WithField(formData, f, value);
    }

    /**
     * A submit event: the browser dispatches it only when every field is filled
     * and the submit button is enabled (it is disabled while submitting); the
     * handler then sets `isSubmitting`.
     */
    method BeginSubmit() returns (started: bool)
      modifies this`isSubmitting
      ensures started <==> !old(isSubmitting) && IsFilled(formData)
      ensures isSubmitting == (old(isSubmitting) || started)
    {
      started := !isSubmitting && IsFilled(formData);
      if started {
        isSubmitting := true;
      }
    }

    /** The end of the simulated delay: the form is cleared and the submission ends, always successfully. */
    method CompleteSubmit()
      requires isSubmitting
      modifies this`formData, this`isSubmitting
      ensures formData == EmptyForm && !isSubmitting
      ensures !IsFilled(formData)
    {
      EmptyFormIsNotFilled();
      formData := EmptyForm;
      isSubmitting := false;
    }
  }
}

/** Page sessions, checked against the component's contracts alone. */
module PortfolioScenario {
  import opened Wrappers
  import opened Sections
  import opened ContactForm
  import opened Portfolio

  /** Stacked sections of 800 pixels each; the certifications element is missing. */
  const ExampleLayout: Layout := [
    Entry("about", Some(Box(0, 800))), Entry("education", Some(Box(800, 800))),
    Entry("skills", Some(Box(1600, 800))), Entry("projects", Some(Box(2400, 800))),
    Entry("certifications", None), Entry("activities", Some(Box(3200, 800))),
    Entry("contact", Some(Box(4000, 800)))]

  /** Scrolling activates the section under the reference point and keeps it past the last section. */
  method ScrollThroughPage()
  {
    var layout := ExampleLayout;
    assert IsPageLayout(layout);
    var page := new PortfolioPage();

    ScrollSelectsFirstMatch(page.activeSection, layout, 2500, 3);
    page.HandleScroll(layout, 2500);
    assert page.activeSection == "projects";

    page.HandleScroll(layout, 9000);
    assert page.activeSection == "projects";
  }

  /** Navigating to a section whose element is missing requests no scroll. */
  method NavigateToMissingSection()
  {
    var layout := ExampleLayout;
    var page := new PortfolioPage();
    var request := page.ClickNavLink(layout, 4);
    assert request == None;
  }

  /** An observed section that intersects is revealed and stays revealed. */
  method RevealSection()
  {
    var layout := ExampleLayout;
    assert IsPageLayout(layout);
    var page := new PortfolioPage();
    page.ObserveSections(layout);
    assert "skills" in FoundIds(layout) by { assert layout[2].box.Some? && layout[2].id == "skills"; }
    page.OnIntersect([IntersectionEntry("skills", true)]);
    page.OnIntersect([IntersectionEntry("skills", false)]);
    assert "skills" in page.visibleSections;
  }

  /**
   * A submit with an empty field does not start; a filled one starts and ends with
   * an empty form, which cannot be submitted again until it is refilled.
   */
  method FillAndSubmit()
  {
    var page := new PortfolioPage();
    page.HandleInputChange(Name, "Ada");
    page.HandleInputChange(Email, "ada@example.com");
    page.HandleInputChange(Subject, "Hello");
    var early := page.BeginSubmit();
    assert !early by { assert Get(page.formData, Message) == ""; }
    page.HandleInputChange(Message, "A message");
    var started := page.BeginSubmit();
    assert started;
    page.CompleteSubmit();
    assert page.formData == EmptyForm && !page.isSubmitting;
    var again := page.BeginSubmit();
    assert !again;
  }
}
