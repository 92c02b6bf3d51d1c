/**
  The front end's file-upload state: a state machine over Empty, Uploading,
  Done and Failed, plus a validity flag that the change callback decides when
  an upload finishes. The reactive signals become fields of a class; the
  change callback is a fixed function from the uploaded file to Ok or Err.
*/
module FileUpload {
  import opened Wrappers

  /** `UploadedFile`: the name and the text content of a finished upload. */
  datatype UploadedFile = UploadedFile(fileName: string, content: string)

  /** `FileUploadState`. */
  datatype FileUploadState = Empty | Uploading(fileName: string) | Done(file: UploadedFile) | Failed(fileName: string)

  /** `FileUploadState::is_empty`. */
  predicate StateIsEmpty(s: FileUploadState) {
    s.Empty?
  }

  /** `FileUploadState::is_ready`: a new upload may start in every state but Uploading. */
  predicate StateIsReady(s: FileUploadState) {
    !s.Uploading?
  }

  /** `FileUploadState::file`: the uploaded file, present only once an upload is done. */
  function StateFile(s: FileUploadState): (r: Option<UploadedFile>)
    ensures r.Some? <==> s.Done?
    ensures r.Some? ==> r.value == s.file
  {
    if s.Done? then Some(s.file) else None
  }

  /** `FileUpload::file_name`: the name carried by the state, absent only when nothing was uploaded. */
  function StateFileName(s: FileUploadState): (r: Option<string>)
    ensures r.None? <==> s.Empty?
    ensures s.Done? ==> r == Some(s.file.fileName)
    ensures s.Uploading? || s.Failed? ==> r == Some(s.fileName)
  {
    match s
    case Failed(name) => Some(name)
    case Uploading(name) => Some(name)
    case Done(f) => Some(f.fileName)
    case Empty => None
  }

  /** `FileUpload`: the validity flag, the state and the change callback. */
  class FileUpload {
    var isValid: bool
    var state: FileUploadState
    const onChange: UploadedFile -> Result<(), ()>

    /** The flag is cleared only by a finished upload that the callback rejected. */
    ghost predicate Valid()
      reads this
    {
      !isValid ==> state.Done?
    }

    /** `use_file_upload`: starts Done with the cached file when `init` yields one, else Empty; valid. */
    constructor (init: Option<UploadedFile>, onChange: UploadedFile -> Result<(), ()>)
      ensures Valid() && isValid
      ensures state == if init.Some? then Done(init.value) else Empty
      ensures this.onChange == onChange
    {
      isValid := true;
      state := if init.Some? then Done(init.value) else Empty;
      this.onChange := onChange;
    }

    /** `is_valid()`: an upload that is not valid has a file. */
    function IsValid(): (r: bool)
      reads this
      requires Valid()
      ensures !r ==> File().Some?
    {
      isValid
    }

    function IsEmpty(): (r: bool)
      reads this
      ensures r <==> state.Empty?
    {
      StateIsEmpty(state)
    }

    function FileName(): (r: Option<string>)
      reads this
      ensures r.None? <==> state.Empty?
    {
      StateFileName(state)
    }

    function File(): (r: Option<UploadedFile>)
      reads this
      ensures r.Some? <==> state.Done?
    {
      StateFile(state)
    }

    function IsReady(): (r: bool)
      reads this
      ensures r <==> !state.Uploading?
    {
      StateIsReady(state)
    }

    /**
      `begin(file_name)`: when ready, marks the upload valid, moves to
      Uploading with that name and returns true; otherwise returns false and
      changes nothing.
    */
    method Begin(fileName: string) returns (started: bool)
      requires Valid()
      modifies this
      ensures Valid()
      ensures started == StateIsReady(old(state))
      ensures started ==> state == Uploading(fileName) && isValid
      ensures !started ==> state == old(state) && isValid == old(isValid)
    {
      if StateIsReady(state) {
        isValid := true;
        state := Uploading(fileName);
        started := true;
      } else {
        started := false;
      }
    }

    /** `abort()`: an upload in progress fails under the same name; in any other state nothing happens. */
    method Abort()
      requires Valid()
      modifies this`state
      ensures Valid() && isValid == old(isValid)
      ensures old(state).Uploading? ==> state == Failed(old(state).fileName)
      ensures !old(state).Uploading? ==> state == old(state)
    {
      if state.Uploading? {
        state := Failed(state.fileName);
      }
    }

    /**
      `finish(content)`: an upload in progress is done with its name and the
      given content, and is valid exactly when the change callback accepts the
      file; in any other state nothing happens.
    */
    method Finish(content: string)
      requires Valid()
      modifies this
      ensures Valid()
      ensures old(state).Uploading? ==>
        var file := UploadedFile(old(state).fileName, content);
        state == Done(file) && isValid == onChange(file).Ok?
      ensures !old(state).Uploading? ==> state == old(state) && isValid == old(isValid)
    {
      if state.Uploading? {
        var file := UploadedFile(state.fileName, content);
        match onChange(file) {
          case Ok(_) => isValid := true;
          case Err(_) => isValid := false;
        }
        state := Done(file);
      }
    }
  }
}
