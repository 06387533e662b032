/** The exact words of the service's long prompts
    (services/geminiService.ts). Kept apart from the service so that its
    proofs never unfold these texts. */
module PromptWording {
  import opened JsString
  import opened GeminiService

  const DescriptionPromptHead := "Identify the '"

  const DescriptionPromptTail := "' in the image. Generate a highly detailed, descriptive paragraph about its 3D shape, form, texture, and key geometric features from all possible viewing angles. \n\nFocus on:\n- Overall 3D geometry and proportions\n- Surface textures and materials\n- Key features visible from front, back, sides, top, and bottom views\n- Structural details that would be important for 3D reconstruction\n- How the object would appear when viewed from different diagonal angles\n\nThis description will be used to create comprehensive multi-angle renders and a voxelized 3D model, so be specific about its contours, depth, structure, and distinguishing features that would be captured from multiple camera viewpoints."

  const StlPromptHead := "Generate a comprehensive ASCII STL representation for this object that incorporates geometric details that would be captured from multiple camera angles (front, back, sides, top, bottom, diagonals) during a voxelization process: "

  const StlPromptTail := "\n\nThe STL should have enough triangular facets to represent the object's 3D structure comprehensively, as if reconstructed from multiple viewpoint images."

  /** The text of a prompt as it is sent. */
  function PromptText(p: Prompt): string {
    match p
    case DescribeObject(objectName) => DescriptionPromptHead + objectName + DescriptionPromptTail
    case StlFromDescription(description) => StlPromptHead + description + StlPromptTail
  }

  /** The description prompt names the object right after its opening words. */
  lemma DescriptionPromptNamesObject(objectName: string)
    ensures EmbedsAt(PromptText(DescribeObject(objectName)), objectName, |DescriptionPromptHead|)
  {
    EmbedsBetween(DescriptionPromptHead, objectName, DescriptionPromptTail);
  }

  /** The STL prompt carries the whole description right after its opening
      paragraph. */
  lemma StlPromptCarriesDescription(description: string)
    ensures EmbedsAt(PromptText(StlFromDescription(description)), description, |StlPromptHead|)
  {
    EmbedsBetween(StlPromptHead, description, StlPromptTail);
  }

  /** The text of a system instruction as it is sent. */
  function InstructionText(i: SystemInstruction): string {
    match i
    case StlExpert =>
      "You are an expert in 3D modeling and voxelization. Your task is to generate a realistic ASCII STL file format representation based on a textual description of an object. \n\nThis STL should simulate the result of a voxelization process that would combine multiple camera viewpoints (front, back, left, right, top, bottom, and diagonal views) into a single coherent 3D model. \n\nThe STL should be syntactically correct with proper triangle mesh definitions. Create a more detailed mesh with multiple triangular facets that represent the object's geometry from all angles. Include facets that would capture features visible from different viewpoints.\n\nUse realistic vertex coordinates and normal vectors. Start with \"solid object\" and end with \"endsolid object\". Do not include any explanation, just the STL code."
  }
}
