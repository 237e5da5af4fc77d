/** The model-training page: picking a CSV file, starting a training run and
    receiving its outcome. The page's state is a class whose fields the
    handlers update in place; reading the file's text and the training
    request are delivered to the handlers as parameters. */
module TrainModel {
  import opened JsString

  /** A file chosen in the file input: its name and its MIME type. */
  datatype CsvFile = CsvFile(name: string, mimeType: string)

  /** What reading the chosen file's text gave. */
  datatype ReadOutcome = ReadText(text: string) | ReadFailed

  /** What the training request ended with. */
  datatype TrainingOutcome = Trained(modelUpdated: bool) | TrainingFailed(message: string)

  /** The results shown after a successful run. */
  datatype TrainingResults = TrainingResults(modelUpdated: bool)

  const CsvFormatError := "Lütfen CSV formatında bir dosya seçin."
  const ReadError := "Dosya okunurken bir hata oluştu"
  const NoFileError := "Lütfen önce bir CSV dosyası yükleyin."
  const DefaultTrainingError := "Eğitim sırasında bir hata oluştu"

  /** The extension checked: the lower-cased name from its last `.` on; a
      name without a `.` is taken whole, because `substring(-1)` starts at 0. */
  function Extension(name: string): string
  {
    Lower(SubstringFrom(name, LastIndexOf(name, '.')))
  }

  /** A file is accepted when its extension is `.csv` or its type is one of
      the two CSV MIME types. */
  predicate Acceptable(f: CsvFile)
  {
    Extension(f.name) == ".csv" || f.mimeType == "text/csv" || f.mimeType == "application/vnd.ms-excel"
  }

  /** A name ending in `.` and a part without a dot has that part, lower-cased
      and with its dot, as its extension, whatever comes before. */
  lemma ExtensionOfDotted(base: string, ext: string)
    requires '.' !in ext
    ensures Extension(base + "." + ext) == Lower("." + ext)
  {
    var name := base + "." + ext;
    assert name[|base|] == '.' && name[|base| + 1..] == ext;
    assert name[|base| + 1..] == ext;
    assert LastIndexOf(name, '.') == |base|;
    assert name[|base|..] == "." + ext;
  }

  /** A name without a dot is its own extension, lower-cased. */
  lemma ExtensionWithoutDot(name: string)
    requires '.' !in name
    ensures Extension(name) == Lower(name)
  {
  }

  /** `DATA.CSV` is accepted by its extension alone, whatever its type. */
  lemma UpperCaseCsvAccepted(base: string, mimeType: string)
    ensures Acceptable(CsvFile(base + ".CSV", mimeType))
  {
    assert base + ".CSV" == base + "." + "CSV";
    ExtensionOfDotted(base, "CSV");
    LowerDotCsv();
  }

  lemma LowerDotCsv()
    ensures Lower("." + "CSV") == ".csv"
  {
    LowerCons('V', []);
    LowerCons('S', "V");
    LowerCons('C', "SV");
    LowerCons('.', "CSV");
    assert "." + "CSV" == ['.'] + "CSV";
  }

  lemma LowerCons(c: char, s: string)
    ensures Lower([c] + s) == LowerChar(c) + Lower(s)
  {
    assert ([c] + s)[1..] == s;
  }

  /** The number of lines shown, `split('\n').length - 1`, is the number of
      line breaks in the content. */
  function RowCount(csv: string): (n: int)
    ensures n >= 0 && n == Count(csv, '\n')
  {
    |Split(csv, '\n')| - 1
  }

  class TrainingPage {
    var file: Option<CsvFile>
    var fileName: string
    var csvContent: string
    var isTraining: bool
    var trainingResults: Option<TrainingResults>
    var error: Option<string>

    /** The name shown is the chosen file's, and only accepted files are kept;
        results are never shown while a run is in progress. */
    predicate Valid()
      reads this
    {
      && (file.Some? ==> fileName == file.value.name && Acceptable(file.value))
      && (file.None? ==> fileName == [])
      && (isTraining ==> trainingResults.None?)
    }

    constructor ()
      ensures Valid()
      ensures file.None? && fileName == [] && csvContent == []
      ensures !isTraining && trainingResults.None? && error.None?
    {
      file := None;
      fileName := [];
      csvContent := [];
      isTraining := false;
      trainingResults := None;
      error := None;
    }

    /** The train button is disabled without a file, without content, or
        while a run is in progress. */
    predicate TrainDisabled()
      reads this
    {
      file.None? || csvContent == [] || isTraining
    }

    /** `handleFileChange`. Nothing chosen changes nothing. An accepted file is
        kept with its name and the error cleared, and then its text becomes the
        content or, when reading fails, the read error is shown and the old
        content stays. A rejected file sets the format error and clears the
        file and its name but not the content. */
    method ChooseFile(selected: Option<CsvFile>, read: ReadOutcome)
      requires Valid()
      modifies this
      ensures Valid()
      ensures isTraining == old(isTraining) && trainingResults == old(trainingResults)
      ensures selected.None? ==>
        file == old(file) && fileName == old(fileName) && csvContent == old(csvContent) && error == old(error)
      ensures selected.Some? && Acceptable(selected.value) ==>
        && file == selected && fileName == selected.value.name
        && (read.ReadText? ==> csvContent == read.text && error.None?)
        && (read.ReadFailed? ==> csvContent == old(csvContent) && error == Some(ReadError))
      ensures selected.Some? && !Acceptable(selected.value) ==>
        file.None? && fileName == [] && csvContent == old(csvContent) && error == Some(CsvFormatError)
    {
      if selected.Some? {
        var f := selected.value;
        if Acceptable(f) {
          file := selected;
          fileName := f.name;
          error := None;
          match read
          case ReadText(text) => csvContent := text;
          case ReadFailed => error := Some(ReadError);
        } else {
          error := Some(CsvFormatError);
          file := None;
          fileName := [];
        }
      }
    }

    /** The start of `handleTraining`: without a file or content it only sets
        the error; otherwise a run begins with the error and old results
        cleared. `started` says which happened. */
    method BeginTraining() returns (started: bool)
      requires Valid()
      modifies this
      ensures Valid()
      ensures started <==> old(file).Some? && old(csvContent) != []
      ensures file == old(file) && fileName == old(fileName) && csvContent == old(csvContent)
      ensures !started ==>
        error == Some(NoFileError) && isTraining == old(isTraining) && trainingResults == old(trainingResults)
      ensures started ==> isTraining && error.None? && trainingResults.None?
    {
      if file.None? || csvContent == [] {
        error := Some(NoFileError);
        return false;
      }
      isTraining := true;
      error := None;
      trainingResults := None;
      started := true;
    }

    /** The end of `handleTraining`: the run stops, and its results or its
        message (the default one when the message is empty) are shown. */
    method FinishTraining(outcome: TrainingOutcome)
      requires Valid()
      modifies this
      ensures Valid()
      ensures !isTraining
      ensures file == old(file) && fileName == old(fileName) && csvContent == old(csvContent)
      ensures outcome.Trained? ==>
        trainingResults == Some(TrainingResults(outcome.modelUpdated)) && error == old(error)
      ensures outcome.TrainingFailed? ==>
        trainingResults == old(trainingResults)
        && error == Some(if outcome.message != [] then outcome.message else DefaultTrainingError)
    {
      isTraining := false;
      match outcome
      case Trained(updated) =>
        trainingResults := Some(TrainingResults(updated));
      case TrainingFailed(message) =>
        error := Some(if message != [] then message else DefaultTrainingError);
    }

    /** The remove button: file, name, content and error are cleared. */
    method RemoveFile()
      requires Valid()
      modifies this
      ensures Valid()
      ensures file.None? && fileName == [] && csvContent == [] && error.None?
      ensures isTraining == old(isTraining) && trainingResults == old(trainingResults)
    {
      file := None;
      fileName := [];
      csvContent := [];
      error := None;
    }

    /** The start-over button: results, file, name and content are cleared;
        the error stays. */
    method StartOver()
      requires Valid()
      modifies this
      ensures Valid()
      ensures trainingResults.None? && file.None? && fileName == [] && csvContent == []
      ensures isTraining == old(isTraining) && error == old(error)
    {
      trainingResults := None;
      file := None;
      fileName := [];
      csvContent := [];
    }
  }

  /** A run starts exactly when the train button is enabled on an idle page,
      and a refused start leaves the page idle. */
  method TrainingGuard(page: TrainingPage) returns (started: bool)
    requires page.Valid() && !page.isTraining
    modifies page
    ensures started <==> !old(page.TrainDisabled())
    ensures !started ==> !page.isTraining && page.error == Some(NoFileError)
  {
    started := page.BeginTraining();
  }

  /** After a file is removed or the page starts over, training is disabled. */
  method ClearedPageCannotTrain(page: TrainingPage, removeFile: bool)
    requires page.Valid()
    modifies page
    ensures page.TrainDisabled()
  {
    if removeFile { page.RemoveFile(); } else { page.StartOver(); }
  }
}
