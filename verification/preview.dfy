/** The output path of a preview image (`generate_preview_image`). */
module Preview {

  const Extension: string := ".jpg"

  /** The image path for a converted timecode: the folder, a `/`, the
      timecode, then `.jpg`. */
  function PreviewPath(folder: string, timecode: string): (p: string)
    ensures |p| == |folder| + 1 + |timecode| + |Extension|
    ensures p[..|folder|] == folder
    ensures p[|folder|] == '/'
    ensures p[|folder| + 1..|p| - |Extension|] == timecode
    ensures p[|p| - |Extension|..] == Extension
  {
    folder + "/" + timecode + Extension
  }

  /** The timecode can be read back from its path. */
  function TimecodeOfPath(folder: string, p: string): string
    requires |folder| + 1 + |Extension| <= |p|
  {
    p[|folder| + 1..|p| - |Extension|]
  }

  lemma TimecodeOfPreviewPath(folder: string, timecode: string)
    ensures TimecodeOfPath(folder, PreviewPath(folder, timecode)) == timecode
  {
  }

  /** In one folder, distinct timecodes get distinct image paths, so
      concurrent jobs for distinct timecodes never write the same file. */
  lemma PreviewPathInjective(folder: string, a: string, b: string)
    requires a != b
    ensures PreviewPath(folder, a) != PreviewPath(folder, b)
  {
    TimecodeOfPreviewPath(folder, a);
    TimecodeOfPreviewPath(folder, b);
  }
}
