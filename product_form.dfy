/**
 * The client-side form of components/product-form.tsx: its state, the
 * validation that builds the error dictionary check by check, the two
 * image handlers that keep a single image source, and submission.
 */
module ProductForm {
  import opened Wrappers
  import opened Strings
  import Store
  import UploadApi

  /** The `formData` state. */
  datatype FormData = FormData(
    name: string,
    description: string,
    category: string,
    stockQuantity: int,
    imageUrl: string)

  /** The initial `formData`, to which a successful submission returns. */
  const Blank := FormData("", "", "", 0, "")

  /** The keys of the `errors` dictionary. */
  datatype ErrorKey = Name | Description | Category | StockQuantity | Image | Submit

  const NameRequired := "Product name is required"
  const DescriptionRequired := "Description is required"
  const CategoryRequired := "Category is required"
  const NegativeStock := "Stock quantity cannot be negative"
  const ImageRequired := "Either upload an image or provide an image URL"
  const SubmitFailed := "Failed to create product. Please try again."

  /** The form's contents pass every check of `validateForm`. */
  ghost predicate Passes(data: FormData, hasFile: bool) {
    && !IsBlank(data.name)
    && !IsBlank(data.description)
    && !IsBlank(data.category)
    && data.stockQuantity >= 0
    && (hasFile || data.imageUrl != "")
  }

  /** `errors` has one entry, with its message, for each check the contents fail, and no other entry. */
  ghost predicate Reports(errors: map<ErrorKey, string>, data: FormData, hasFile: bool) {
    && Submit !in errors
    && (Name in errors <==> IsBlank(data.name))
    && (Description in errors <==> IsBlank(data.description))
    && (Category in errors <==> IsBlank(data.category))
    && (StockQuantity in errors <==> data.stockQuantity < 0)
    && (Image in errors <==> !hasFile && data.imageUrl == "")
    && (Name in errors ==> errors[Name] == NameRequired)
    && (Description in errors ==> errors[Description] == DescriptionRequired)
    && (Category in errors ==> errors[Category] == CategoryRequired)
    && (StockQuantity in errors ==> errors[StockQuantity] == NegativeStock)
    && (Image in errors ==> errors[Image] == ImageRequired)
  }

  /** The `newErrors` dictionary of `validateForm`, built one check at a time. */
  method CollectErrors(data: FormData, hasFile: bool) returns (newErrors: map<ErrorKey, string>)
    ensures Reports(newErrors, data, hasFile)
  {
    var noName, noDescription, noCategory :=
      TrimsToEmpty(data.name), TrimsToEmpty(data.description), TrimsToEmpty(data.category);
    newErrors := map[];
    if noName {
      newErrors := newErrors[Name := NameRequired];
    }
    if noDescription {
      newErrors := newErrors[Description := DescriptionRequired];
    }
    if noCategory {
      newErrors := newErrors[Category := CategoryRequired];
    }
    if data.stockQuantity < 0 {
      newErrors := newErrors[StockQuantity := NegativeStock];
    }
    if !hasFile && data.imageUrl == "" {
      newErrors := newErrors[Image := ImageRequired];
    }
  }

  /** The dictionary is empty exactly when every check passes. */
  lemma {:induction false} EmptyIffPasses(errors: map<ErrorKey, string>, data: FormData, hasFile: bool)
    requires Reports(errors, data, hasFile)
    ensures |errors| == 0 <==> Passes(data, hasFile)
  {
    if Passes(data, hasFile) {
      forall k | k in errors ensures false {
        match k
        case Name =>
        case Description =>
        case Category =>
        case StockQuantity =>
        case Image =>
        case Submit =>
      }
      assert errors == map[];
    } else {
      assert errors.Keys != {} by {
        var k := if IsBlank(data.name) then Name
          else if IsBlank(data.description) then Description
          else if IsBlank(data.category) then Category
          else if data.stockQuantity < 0 then StockQuantity
          else Image;
        assert k in errors;
      }
    }
  }

  /** The fields of a form that passed validation, ready for `onSubmit` (lines 88-94). */
  function Submission(data: FormData, imageUrl: string): (f: Store.Fields)
    requires !IsBlank(data.name) && !IsBlank(data.description) && !IsBlank(data.category)
    ensures f.name == Trim(data.name) && f.description == Trim(data.description) && f.category == Trim(data.category)
    ensures Trimmed(f.name) && Trimmed(f.description) && Trimmed(f.category)
    ensures f.stockQuantity == data.stockQuantity && f.imageUrl == imageUrl
  {
    TrimEmptyIffBlank(data.name);
    TrimEmptyIffBlank(data.description);
    TrimEmptyIffBlank(data.category);
    TrimEnds(data.name);
    TrimEnds(data.description);
    TrimEnds(data.category);
    Store.Fields(Trim(data.name), Trim(data.description), imageUrl, data.stockQuantity, Trim(data.category))
  }

  class Form {
    var data: FormData
    var imageFile: Option<UploadApi.File>
    var uploading: bool
    var errors: map<ErrorKey, string>

    /** A chosen file and a typed URL are never both present. */
    predicate SingleImageSource()
      reads this
    {
      imageFile.Some? ==> data.imageUrl == ""
    }

    /** The state the `useState` calls start with. */
    constructor ()
      ensures data == Blank && imageFile == None && !uploading && errors == map[]
      ensures SingleImageSource()
    {
      data := Blank;
      imageFile := None;
      uploading := false;
      errors := map[];
    }

    /** `validateForm`: store the error dictionary and say whether it is empty. */
    method ValidateForm() returns (ok: bool)
      modifies this`errors
      ensures Reports(errors, data, imageFile.Some?)
      ensures ok <==> |errors| == 0
      ensures ok <==> Passes(data, imageFile.Some?)
    {
      errors := CollectErrors(data, imageFile.Some?);
      EmptyIffPasses(errors, data, imageFile.Some?);
      ok := |errors| == 0;
    }

    /** The `onChange` of the name input. */
    method ChangeName(value: string)
      requires SingleImageSource()
      modifies this`data, this`errors
      ensures SingleImageSource()
      ensures data == old(data).(name := value) && errors == old(errors)[Name := ""]
    {
      data := data.(name := value);
      errors := errors[Name := ""];
    }

    /** The `onChange` of the description input. */
    method ChangeDescription(value: string)
      requires SingleImageSource()
      modifies this`data, this`errors
      ensures SingleImageSource()
      ensures data == old(data).(description := value) && errors == old(errors)[Description := ""]
    {
      data := data.(description := value);
      errors := errors[Description := ""];
    }

    /** The `onChange` of the category input. */
    method ChangeCategory(value: string)
      requires SingleImageSource()
      modifies this`data, this`errors
      ensures SingleImageSource()
      ensures data == old(data).(category := value) && errors == old(errors)[Category := ""]
    {
      data := data.(category := value);
      errors := errors[Category := ""];
    }

    /** The `onChange` of the stock input: `parseInt(value) || 0`, `parsed` being what `parseInt` read. */
    method ChangeStockQuantity(parsed: Option<int>)
      requires SingleImageSource()
      modifies this`data, this`errors
      ensures SingleImageSource()
      ensures data == old(data).(stockQuantity := ParsedOrZero(parsed))
      ensures errors == old(errors)[StockQuantity := ""]
    {
      data := data.(stockQuantity := ParsedOrZero(parsed));
      errors := errors[StockQuantity := ""];
    }

    /** `handleImageChange`: a chosen file replaces the URL; no file chosen changes nothing. */
    method HandleImageChange(file: Option<UploadApi.File>)
      requires SingleImageSource()
      modifies this`data, this`imageFile, this`errors
      ensures SingleImageSource()
      ensures file.None? ==> data == old(data) && imageFile == old(imageFile) && errors == old(errors)
      ensures file.Some? ==>
        && imageFile == file && data == old(data).(imageUrl := "")
        && errors == old(errors)[Image := ""]
    {
      if file.Some? {
        imageFile := file;
        data := data.(imageUrl := "");
        errors := errors[Image := ""];
      }
    }

    /** `handleImageUrlChange`: a typed URL drops the chosen file. */
    method HandleImageUrlChange(value: string)
      requires SingleImageSource()
      modifies this`data, this`imageFile, this`errors
      ensures SingleImageSource()
      ensures data == old(data).(imageUrl := value) && imageFile == None
      ensures errors == old(errors)[Image := ""]
    {
      data := data.(imageUrl := value);
      imageFile := None;
      errors := errors[Image := ""];
    }

    /**
     * `handleSubmit`. `uploaded` is the URL the upload of the chosen file
     * returns (`None` when it throws); `accepted` says whether `onSubmit`
     * resolved. The result is what `onSubmit` received, if it was called.
     */
    method HandleSubmit(uploaded: Option<string>, accepted: bool) returns (submitted: Option<Store.Fields>)
      requires SingleImageSource()
      modifies this
      ensures SingleImageSource()
      ensures !Passes(old(data), old(imageFile).Some?) ==>
        && submitted == None && Reports(errors, data, imageFile.Some?)
        && data == old(data) && imageFile == old(imageFile) && uploading == old(uploading)
      ensures Passes(old(data), old(imageFile).Some?) ==> !uploading
      ensures Passes(old(data), old(imageFile).Some?) && old(imageFile).Some? && uploaded.None? ==>
        && submitted == None && errors == map[Submit := SubmitFailed]
        && data == old(data) && imageFile == old(imageFile)
      ensures Passes(old(data), old(imageFile).Some?) && (old(imageFile).None? || uploaded.Some?) ==>
        submitted == Some(Submission(old(data), if old(imageFile).Some? then uploaded.value else old(data).imageUrl))
      ensures submitted.Some? && accepted ==> data == Blank && imageFile == None && errors == map[]
      ensures submitted.Some? && !accepted ==>
        errors == map[Submit := SubmitFailed] && data == old(data) && imageFile == old(imageFile)
    {
      var ok := ValidateForm();
      if !ok {
        return None;
      }
      uploading := true;
      var finalImageUrl := data.imageUrl;
      if imageFile.Some? {
        if uploaded.None? {
          errors := map[Submit := SubmitFailed];
          uploading := false;
          return None;
        }
        finalImageUrl := uploaded.value;
      }
      submitted := Some(Submission(data, finalImageUrl));
      if accepted {
        data := Blank;
        imageFile := None;
        errors := map[];
      } else {
        errors := map[Submit := SubmitFailed];
      }
      uploading := false;
    }
  }
}
