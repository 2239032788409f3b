/**
 * The vote whose PDF is open in the viewer (src/features/home/hooks/usePdfModal.ts).
 */
module PdfModal {
  import opened Wrappers
  import opened VotacionesSearch

  /** Lines 4-19. */
  class PdfModal {
    var selectedPdf: Option<VotacionItem>

    /** Line 5: nothing is open. */
    constructor()
      ensures selectedPdf.None?
    {
      selectedPdf := None;
    }

    /** Lines 7-9: the vote is opened, in place of any other. */
    method OpenModal(item: VotacionItem)
      modifies this
      ensures selectedPdf == Some(item)
    {
      selectedPdf := Some(item);
    }

    /** Lines 11-13: nothing is open, whatever was before; a second call changes nothing. */
    method CloseModal()
      modifies this
      ensures selectedPdf.None?
    {
      selectedPdf := None;
    }
  }
}
