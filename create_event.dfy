/**
 * The create-event form's state (frontend/src/pages/CreateEvent.jsx): a
 * record of text fields updated one field at a time, the DD-MM-YYYY echo of
 * the picked date, the selected image, and the fields a submission sends.
 */
module CreateEvent {
  import opened Wrappers
  import opened JsText

  /** A file picked in the image input; only its identity matters here. */
  datatype File = File(name: string)

  /** A value appended to the multipart form: text or the image file. */
  datatype Entry = Text(text: string) | Blob(file: File)

  /** The element at `i` of a destructured array, as a template literal
      renders it: a missing element reads "undefined". */
  function Part(parts: seq<string>, i: nat): (r: string)
    ensures i < |parts| ==> r == parts[i]
    ensures i >= |parts| ==> r == "undefined"
  {
    if i < |parts| then parts[i] else "undefined"
  }

  /** `const [year, month, day] = selectedDate.split("-")` followed by
      `${day}-${month}-${year}`: whatever the input, the result is three
      '-'-free fields, the input's third, second and first pieces. */
  function Reformat(selected: string): (r: string)
    ensures var parts := Split(selected, '-');
            Split(r, '-') == [Part(parts, 2), Part(parts, 1), Part(parts, 0)]
  {
    var parts := Split(selected, '-');
    var day, month, year := Part(parts, 2), Part(parts, 1), Part(parts, 0);
    assert '-' !in "undefined";
    assert '-' !in day && '-' !in month && '-' !in year;
    var r := day + "-" + month + "-" + year;
    assert r == day + ['-'] + (month + ['-'] + year);
    SplitFirstPiece(day, '-', month + ['-'] + year);
    SplitFirstPiece(month, '-', year);
    SplitNoSeparator(year, '-');
    r
  }

  /** A YYYY-MM-DD value (three pieces without '-') comes out as DD-MM-YYYY. */
  lemma ReformatSwapsDayAndYear(year: string, month: string, day: string)
    requires '-' !in year && '-' !in month && '-' !in day
    ensures Reformat(year + "-" + month + "-" + day) == day + "-" + month + "-" + year
  {
    var s := year + "-" + month + "-" + day;
    assert s == year + ['-'] + (month + ['-'] + day);
    SplitFirstPiece(year, '-', month + ['-'] + day);
    SplitFirstPiece(month, '-', day);
    SplitNoSeparator(day, '-');
    assert Split(s, '-') == [year, month, day];
  }

  /** Reformatting a reformatted date gives the original back. */
  lemma ReformatTwiceRestores(year: string, month: string, day: string)
    requires '-' !in year && '-' !in month && '-' !in day
    ensures Reformat(Reformat(year + "-" + month + "-" + day)) == year + "-" + month + "-" + day
  {
    ReformatSwapsDayAndYear(year, month, day);
    ReformatSwapsDayAndYear(day, month, year);
  }

  /** A value without any '-' has no month or day: both read "undefined". */
  lemma ReformatWithoutSeparator(selected: string)
    requires '-' !in selected
    ensures Reformat(selected) == "undefined-undefined-" + selected
  {
    SplitNoSeparator(selected, '-');
  }

  /** The four text fields the form starts with. */
  const RequiredKeys: seq<string> := ["name", "description", "category", "date"]

  class CreateEventForm {
    var eventData: map<string, string>
    var formattedDate: string
    var image: Option<File>

    /** The four initial keys are never removed: updates only add or overwrite. */
    predicate Valid()
      reads this
    {
      forall k :: k in RequiredKeys ==> k in eventData
    }

    /** The initial state: four empty fields, no formatted date, no image. */
    constructor ()
      ensures eventData == map["name" := "", "description" := "", "category" := "", "date" := ""]
      ensures formattedDate == "" && image == None
      ensures Valid()
    {
      eventData := map["name" := "", "description" := "", "category" := "", "date" := ""];
      formattedDate := "";
      image := None;
    }

    /** `handleChange`: the field the input names takes the new value; every
        other field keeps its value and no field disappears. */
    method HandleChange(key: string, value: string)
      requires Valid()
      modifies this`eventData
      ensures Valid()
      ensures eventData == old(eventData)[key := value]
      ensures eventData.Keys == old(eventData).Keys + {key}
      ensures forall k :: k in old(eventData) && k != key ==> eventData[k] == old(eventData)[k]
    {
      eventData := eventData[key := value];
    }

    /** `handleDateChange`: a non-empty value updates the formatted date, an
        empty one leaves it; the raw value always becomes the `date` field. */
    method HandleDateChange(selected: string)
      requires Valid()
      modifies this`eventData, this`formattedDate
      ensures Valid()
      ensures selected != "" ==> formattedDate == Reformat(selected)
      ensures selected == "" ==> formattedDate == old(formattedDate)
      ensures eventData == old(eventData)["date" := selected]
      ensures forall k :: k in old(eventData) && k != "date" ==> eventData[k] == old(eventData)[k]
    {
      if selected != "" {
        formattedDate := Reformat(selected);
      }
      eventData := eventData["date" := selected];
    }

    /** `handleImageChange`: the first selected file, or none. */
    method HandleImageChange(file: Option<File>)
      modifies this`image
      ensures image == file
    {
      image := file;
    }

    /** The entries `handleSubmit` appends to its FormData: the four text
        fields in order, then the image only when one is selected. */
    function FormEntries(): (r: seq<(string, Entry)>)
      requires Valid()
      reads this
      ensures |r| == if image.Some? then 5 else 4
      ensures forall i :: 0 <= i < 4 ==> r[i] == (RequiredKeys[i], Text(eventData[RequiredKeys[i]]))
      ensures (exists i :: 0 <= i < |r| && r[i].0 == "image") <==> image.Some?
      ensures image.Some? ==> r[4] == ("image", Blob(image.value))
    {
      var fields := [("name", Text(eventData["name"])),
                     ("description", Text(eventData["description"])),
                     ("category", Text(eventData["category"])),
                     ("date", Text(eventData["date"]))];
      assert forall i :: 0 <= i < 4 ==> |fields[i].0| != |"image"|;
      if image.Some? then
        var withImage := fields + [("image", Blob(image.value))];
        assert withImage[4].0 == "image";
        withImage
      else fields
    }
  }
}
